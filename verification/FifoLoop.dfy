/**
 The schedule the event loop really follows: callbacks run in the order in which
 they were scheduled. A clear is scheduled by a notification and a wait task by
 the handler that blocks. A wake-up leads to the handler's resumption through a
 chain of callbacks, so the resumption is scheduled at the wake-up or at any time
 after it. Other requests come in between at any time.
 */
module FifoLoop {
  import opened Wrappers
  import opened Tables
  import opened Protocol
  import opened LongPoll

  datatype Callback = DoClear | DoStart(p: PollId) | DoResume(p: PollId)

  datatype Loop = Loop(server: Server, ready: seq<Callback>)

  /** Incoming is a segment that was not scheduled here; Head is the callback at the
      head; Skip drops one whose handler has gone; Hop schedules the resumption of
      a woken handler. */
  datatype Turn =
    | Incoming(e: Event, added: seq<Callback>)
    | Head(e: Event, added: seq<Callback>)
    | Skip
    | Hop(p: PollId)
  {
    predicate Moves() { Incoming? || Head? }
  }

  predicate IsStarting(s: Server, p: PollId) { p in s.polls && s.polls[p].Starting? }

  predicate IsWoken(s: Server, p: PollId) { p in s.polls && s.polls[p].Waiting? && s.polls[p].woken }

  /** `added` is what the step from s to s' schedules, in some order. */
  ghost predicate Schedules(s: Server, s': Server, added: seq<Callback>) {
    && (DoClear in added <==> s'.clears > s.clears)
    && (forall p :: DoStart(p) in added <==> IsStarting(s', p) && !IsStarting(s, p))
    && (forall p :: DoResume(p) in added ==> IsWoken(s', p) && !IsWoken(s, p))
  }

  predicate Matches(c: Callback, e: Event) {
    match c
    case DoClear => e.Clear?
    case DoStart(p) => e.Start? && e.p == p
    case DoResume(p) => e.Resume? && e.p == p
  }

  ghost predicate CanTurn(eager: bool, maxRetries: int, l: Loop, t: Turn) {
    match t
    case Incoming(e, added) =>
      && CanStep(l.server, e) && !e.Clear? && !e.Start? && !e.Resume?
      && Schedules(l.server, LongPoll.Next(eager, maxRetries, l.server, e), added)
    case Head(e, added) =>
      && l.ready != [] && Matches(l.ready[0], e) && CanStep(l.server, e)
      && Schedules(l.server, LongPoll.Next(eager, maxRetries, l.server, e), added)
    case Skip =>
      && l.ready != [] && !l.ready[0].DoClear?
      && (l.ready[0].DoStart? ==> !IsStarting(l.server, l.ready[0].p))
      && (l.ready[0].DoResume? ==> !IsWoken(l.server, l.ready[0].p))
    case Hop(p) => IsWoken(l.server, p)
  }

  /** The callbacks left once the turn's own has been taken off. */
  function Rest(l: Loop, t: Turn): seq<Callback> {
    if t.Incoming? || t.Hop? || l.ready == [] then l.ready else l.ready[1..]
  }

  ghost function Turned(eager: bool, maxRetries: int, l: Loop, t: Turn): Loop
    requires CanTurn(eager, maxRetries, l, t)
  {
    if t.Skip? then l.(ready := Rest(l, t))
    else if t.Hop? then l.(ready := l.ready + [DoResume(t.p)])
    else Loop(LongPoll.Next(eager, maxRetries, l.server, t.e), Rest(l, t) + t.added)
  }

  ghost predicate Turns(eager: bool, maxRetries: int, l: Loop, ts: seq<Turn>)
    decreases ts
  {
    ts == [] ||
    (CanTurn(eager, maxRetries, l, ts[0]) && Turns(eager, maxRetries, Turned(eager, maxRetries, l, ts[0]), ts[1..]))
  }

  ghost function Last(eager: bool, maxRetries: int, l: Loop, ts: seq<Turn>): Loop
    requires Turns(eager, maxRetries, l, ts)
    decreases ts
  {
    if ts == [] then l else Last(eager, maxRetries, Turned(eager, maxRetries, l, ts[0]), ts[1..])
  }

  lemma {:induction false} Append(eager: bool, maxRetries: int, l: Loop, ts: seq<Turn>, t: Turn)
    requires Turns(eager, maxRetries, l, ts) && CanTurn(eager, maxRetries, Last(eager, maxRetries, l, ts), t)
    ensures Turns(eager, maxRetries, l, ts + [t])
    ensures Last(eager, maxRetries, l, ts + [t]) == Turned(eager, maxRetries, Last(eager, maxRetries, l, ts), t)
    decreases ts
  {
    if ts == [] {
      assert [] + [t] == [t] && [t][1..] == [];
      assert Turns(eager, maxRetries, Turned(eager, maxRetries, l, t), []);
    } else {
      assert (ts + [t])[1..] == ts[1..] + [t];
      Append(eager, maxRetries, Turned(eager, maxRetries, l, ts[0]), ts[1..], t);
    }
  }

  // ---- the condition -----------------------------------------------------------

  predicate OnlyStarts(cs: seq<Callback>) { forall i :: 0 <= i < |cs| ==> cs[i].DoStart? }

  /** When a handler blocks, no clear is pending and no handler's resumption is
      scheduled; and the reaper fails no queued job. */
  ghost predicate Unhurried(maxRetries: int, l: Loop, t: Turn) {
    t.Moves() ==>
      && ((exists p :: DoStart(p) in t.added) ==> OnlyStarts(Rest(l, t)))
      && (t.e.Act? ==> SparesQueued(maxRetries, l.server.sys, t.e.a))
  }

  /** The start of p is scheduled, with nothing but starts ahead of it. */
  predicate PlacedAt(ready: seq<Callback>, p: PollId, i: nat) {
    i < |ready| && ready[i] == DoStart(p) && OnlyStarts(ready[..i])
  }

  ghost predicate StartsFirst(l: Loop) {
    forall p :: IsStarting(l.server, p) ==> exists i :: PlacedAt(l.ready, p, i)
  }

  ghost predicate Sound(eager: bool, l: Loop) {
    Known(eager, l.server, {}) && Settled(l.server, {}) && NoLostWakeup(l.server) && StartsFirst(l)
  }

  /** First in, first out: whatever clears the event runs after the starts. */
  lemma HeadIsCalm(maxRetries: int, eager: bool, l: Loop, t: Turn)
    requires StartsFirst(l) && CanTurn(eager, maxRetries, l, t) && t.Moves()
    ensures Calm(l.server, t.e)
  {
    if exists p :: IsStarting(l.server, p) {
      var p :| IsStarting(l.server, p);
      var i :| PlacedAt(l.ready, p, i);
      PlacedBehindStarts(l.ready, p, i);
    } else {
      assert forall p :: p in l.server.polls ==> !IsStarting(l.server, p);
      assert StartingPolls(l.server) == {};
    }
  }

  lemma PlacedBehindStarts(ready: seq<Callback>, p: PollId, i: nat)
    requires PlacedAt(ready, p, i)
    ensures ready[0].DoStart?
  {
    assert i > 0 ==> ready[..i][0] == ready[0];
  }

  lemma PlacedAfterHead(ready: seq<Callback>, p: PollId, i: nat)
    requires PlacedAt(ready, p, i) && i > 0
    ensures PlacedAt(ready[1..], p, i - 1)
  {
    assert ready[1..][..i - 1] == ready[..i][1..];
  }

  lemma PlacedBeforeMore(ready: seq<Callback>, p: PollId, i: nat, more: seq<Callback>)
    requires PlacedAt(ready, p, i)
    ensures PlacedAt(ready + more, p, i)
  {
    assert (ready + more)[..i] == ready[..i];
  }

  /** A step schedules either one start, or clears and resumptions. */
  lemma StartsComeAlone(eager: bool, maxRetries: int, s: Server, e: Event, added: seq<Callback>, p: PollId)
    requires CanStep(s, e) && Schedules(s, LongPoll.Next(eager, maxRetries, s, e), added) && DoStart(p) in added
    ensures e.Take? && OnlyStarts(added)
  {
    var s' := LongPoll.Next(eager, maxRetries, s, e);
    assert IsStarting(s', p) && !IsStarting(s, p);
    assert e.Take?;
    forall i | 0 <= i < |added| ensures added[i].DoStart? {
      assert added[i] in added;
    }
  }

  lemma NewStartIsPlaced(eager: bool, maxRetries: int, l: Loop, t: Turn, p: PollId)
    requires CanTurn(eager, maxRetries, l, t) && Unhurried(maxRetries, l, t) && t.Moves()
    requires IsStarting(Turned(eager, maxRetries, l, t).server, p) && !IsStarting(l.server, p)
    ensures exists i :: PlacedAt(Turned(eager, maxRetries, l, t).ready, p, i)
  {
    var rest, ready := Rest(l, t), Turned(eager, maxRetries, l, t).ready;
    assert DoStart(p) in t.added;
    var k :| 0 <= k < |t.added| && t.added[k] == DoStart(p);
    StartsComeAlone(eager, maxRetries, l.server, t.e, t.added, p);
    assert ready[..|rest| + k] == rest + t.added[..k];
    assert PlacedAt(ready, p, |rest| + k);
  }

  lemma OldStartStaysPlaced(eager: bool, maxRetries: int, l: Loop, t: Turn, p: PollId)
    requires StartsFirst(l) && CanTurn(eager, maxRetries, l, t)
    requires IsStarting(l.server, p) && IsStarting(Turned(eager, maxRetries, l, t).server, p)
    ensures exists i :: PlacedAt(Turned(eager, maxRetries, l, t).ready, p, i)
  {
    var i :| PlacedAt(l.ready, p, i);
    var popped := t.Head? || t.Skip?;
    var k := if popped then i - 1 else i;
    if popped {
      StillStarting(eager, maxRetries, l, t, p);
      PlacedAfterHead(l.ready, p, i);
    }
    PlacedBeforeMore(Rest(l, t), p, k, if t.Skip? then [] else if t.Hop? then [DoResume(t.p)] else t.added);
    assert t.Skip? ==> Rest(l, t) + [] == Rest(l, t);
  }

  lemma StillStarting(eager: bool, maxRetries: int, l: Loop, t: Turn, p: PollId)
    requires CanTurn(eager, maxRetries, l, t) && (t.Head? || t.Skip?)
    requires IsStarting(l.server, p) && IsStarting(Turned(eager, maxRetries, l, t).server, p)
    ensures l.ready[0] != DoStart(p)
  {
  }

  lemma TurnKeepsSound(eager: bool, maxRetries: int, l: Loop, t: Turn)
    requires Sound(eager, l) && CanTurn(eager, maxRetries, l, t) && Unhurried(maxRetries, l, t)
    ensures Sound(eager, Turned(eager, maxRetries, l, t))
  {
    var l' := Turned(eager, maxRetries, l, t);
    if t.Moves() {
      HeadIsCalm(maxRetries, eager, l, t);
      StepKeepsSettled(eager, maxRetries, l.server, t.e, {});
      ForgetMissed(eager, l'.server, Missed(l.server, t.e, {}));
      StrandsExactly(eager, l.server, t.e, {});
      WakeupsLostExactly(eager, maxRetries, l.server, t.e);
    }
    forall p | IsStarting(l'.server, p) ensures exists i :: PlacedAt(l'.ready, p, i) {
      if IsStarting(l.server, p) {
        OldStartStaysPlaced(eager, maxRetries, l, t, p);
      } else {
        NewStartIsPlaced(eager, maxRetries, l, t, p);
      }
    }
  }

  ghost predicate AlwaysUnhurried(eager: bool, maxRetries: int, l: Loop, ts: seq<Turn>)
    requires Turns(eager, maxRetries, l, ts)
    decreases ts
  {
    ts == [] ||
    (Unhurried(maxRetries, l, ts[0])
     && AlwaysUnhurried(eager, maxRetries, Turned(eager, maxRetries, l, ts[0]), ts[1..]))
  }

  ghost predicate NeverLosesWakeup(eager: bool, maxRetries: int, l: Loop, ts: seq<Turn>)
    requires Turns(eager, maxRetries, l, ts)
    decreases ts
  {
    NoLostWakeup(l.server)
    && (ts == [] || NeverLosesWakeup(eager, maxRetries, Turned(eager, maxRetries, l, ts[0]), ts[1..]))
  }

  lemma {:induction false} UnhurriedNeverLoses(eager: bool, maxRetries: int, l: Loop, ts: seq<Turn>)
    requires Sound(eager, l) && Turns(eager, maxRetries, l, ts) && AlwaysUnhurried(eager, maxRetries, l, ts)
    ensures NeverLosesWakeup(eager, maxRetries, l, ts)
    decreases ts
  {
    if ts == [] {
    } else {
      TurnKeepsSound(eager, maxRetries, l, ts[0]);
      UnhurriedNeverLoses(eager, maxRetries, Turned(eager, maxRetries, l, ts[0]), ts[1..]);
    }
  }

  /** The events of the turns, as the server sees them. */
  function Events(ts: seq<Turn>): seq<Event>
    decreases ts
  {
    if ts == [] then [] else (if ts[0].Moves() then [ts[0].e] else []) + Events(ts[1..])
  }

  lemma {:induction false} LoopRunsAreRuns(eager: bool, maxRetries: int, l: Loop, ts: seq<Turn>)
    requires Turns(eager, maxRetries, l, ts)
    ensures Runs(eager, maxRetries, l.server, Events(ts))
    ensures NeverLosesWakeup(eager, maxRetries, l, ts) <==> NeverLost(eager, maxRetries, l.server, Events(ts))
    decreases ts
  {
    if ts == [] {
    } else {
      var l' := Turned(eager, maxRetries, l, ts[0]);
      LoopRunsAreRuns(eager, maxRetries, l', ts[1..]);
      if ts[0].Moves() {
        assert Events(ts)[0] == ts[0].e && Events(ts)[1..] == Events(ts[1..]);
      } else {
        assert Events(ts) == Events(ts[1..]) && l'.server == l.server;
        if Events(ts[1..]) != [] {
          assert NeverLost(eager, maxRetries, l.server, Events(ts)) ==> NoLostWakeup(l.server);
        }
      }
    }
  }

  /** On the loop too, a run from boot loses no wake-up if and only if none of its
      events takes the risk. */
  lemma LoopNeverLosesExactly(eager: bool, maxRetries: int, ts: seq<Turn>)
    requires Turns(eager, maxRetries, Loop(BOOT, []), ts)
    ensures Runs(eager, maxRetries, BOOT, Events(ts))
    ensures NeverLosesWakeup(eager, maxRetries, Loop(BOOT, []), ts)
       <==> RiskFree(eager, maxRetries, BOOT, Events(ts), {})
  {
    LoopRunsAreRuns(eager, maxRetries, Loop(BOOT, []), ts);
    NeverLostExactly(eager, maxRetries, Events(ts));
  }

  /** With deferred registration as in Python 3.11, no wake-up is lost in any run
      from boot in which a handler blocks only when no clear is pending and no
      other handler's resumption is scheduled. */
  lemma FifoLosesNothing(maxRetries: int, ts: seq<Turn>)
    requires Turns(false, maxRetries, Loop(BOOT, []), ts)
    requires AlwaysUnhurried(false, maxRetries, Loop(BOOT, []), ts)
    ensures NeverLosesWakeup(false, maxRetries, Loop(BOOT, []), ts)
  {
    UnhurriedNeverLoses(false, maxRetries, Loop(BOOT, []), ts);
  }
}
