/**
 A concrete run of the first-in-first-out loop, with deferred registration, that
 loses a wake-up: a handler finds nothing to claim and blocks while a clear is
 pending; a second job is queued; the clear runs before the handler's wait task.
 */
module LateStart {
  import opened Wrappers
  import opened Tables
  import opened Protocol
  import opened LongPoll
  import opened FifoLoop

  const READY := Runner(Some(7), {}, false)
  const FOR_OTHER := NewJob(1, Some("other"), None, 0)
  const FOR_ANYONE := NewJob(2, None, None, 1)
  const WANTED := Ask("w", {}, 1)

  const STORY: seq<Turn> := [
    Incoming(Act(PutRunner("w", READY), true), []),
    Incoming(Act(Dispatch(1, 1, Some("other"), None, 0), true), [DoClear]),
    Incoming(Enter(1, WANTED), []),
    Incoming(Select(1, []), []),
    Incoming(Take(1, 0, false), [DoStart(1)]),
    Incoming(Act(Dispatch(2, 2, None, None, 1), true), [DoClear]),
    Head(Clear, []),
    Head(Start(1), [])
  ]

  function Empty(): Tables { Tables(map[], map[], map["w" := READY]) }

  function OneJob(): Sys {
    Sys(Empty().(jobs := map[1 := FOR_OTHER], runs := map[1 := Run(RunQueued, None)]),
        map[1 := NO_COUNTS], Idle, None)
  }

  function TwoJobs(): Sys {
    Sys(Empty().(jobs := map[1 := FOR_OTHER, 2 := FOR_ANYONE],
                 runs := map[1 := Run(RunQueued, None), 2 := Run(RunQueued, None)]),
        map[1 := NO_COUNTS, 2 := NO_COUNTS], Idle, None)
  }

  /** The state before the i-th turn. */
  function Before(i: nat): Loop {
    match i
    case 0 => Loop(BOOT, [])
    case 1 => Loop(Server(Sys(Empty(), map[], Idle, None), false, 0, map[], None), [])
    case 2 => Loop(Server(OneJob(), true, 1, map[], None), [DoClear])
    case 3 => Loop(Server(OneJob(), true, 1, map[1 := Looking(WANTED)], Some(1)), [DoClear])
    case 4 => Loop(Server(OneJob(), true, 1, map[1 := Chosen(WANTED, [])], Some(1)), [DoClear])
    case 5 => Loop(Server(OneJob(), true, 1, map[1 := Starting(WANTED)], None), [DoClear, DoStart(1)])
    case 6 => Loop(Server(TwoJobs(), true, 2, map[1 := Starting(WANTED)], None), [DoClear, DoStart(1), DoClear])
    case 7 => Loop(Server(TwoJobs(), false, 1, map[1 := Starting(WANTED)], None), [DoStart(1), DoClear])
    case _ => Loop(Server(TwoJobs(), false, 1, map[1 := Waiting(WANTED, false)], None), [DoClear])
  }

  lemma RunnerRegisters()
    ensures CanTurn(false, 3, Before(0), STORY[0]) && Turned(false, 3, Before(0), STORY[0]) == Before(1)
  {
    var s, e := LongPoll.Next(false, 3, Before(0).server, STORY[0].e), Before(1).server;
    assert s.sys.t.runners == e.sys.t.runners && s == e;
  }

  lemma JobForOther()
    ensures CanTurn(false, 3, Before(1), STORY[1]) && Turned(false, 3, Before(1), STORY[1]) == Before(2)
  {
    var s, e := LongPoll.Next(false, 3, Before(1).server, STORY[1].e), Before(2).server;
    assert s.sys.t.jobs == e.sys.t.jobs && s.sys.t.runs == e.sys.t.runs && s.sys.log == e.sys.log;
    assert s.polls == e.polls && s == e;
    assert [] + [DoClear] == [DoClear];
  }

  lemma HandlerEnters()
    ensures CanTurn(false, 3, Before(2), STORY[2]) && Turned(false, 3, Before(2), STORY[2]) == Before(3)
  {
    var s, e := LongPoll.Next(false, 3, Before(2).server, STORY[2].e), Before(3).server;
    assert s.polls == e.polls && s == e;
    assert [DoClear] + [] == [DoClear];
  }

  /** A job for another runner is no candidate. */
  lemma SelectsNothing(sys: Sys)
    requires sys.t.jobs == map[1 := FOR_OTHER]
    ensures
      var s := Server(sys, true, 1, map[1 := Looking(WANTED)], Some(1));
      LongPoll.CanStep(s, Select(1, []))
      && LongPoll.Next(false, 3, s, Select(1, [])) == Server(sys, true, 1, map[1 := Chosen(WANTED, [])], Some(1))
  {
    assert !Eligible(FOR_OTHER, "w", {});
    var s := Server(sys, true, 1, map[1 := Looking(WANTED)], Some(1));
    assert s.polls[1 := Chosen(WANTED, [])] == map[1 := Chosen(WANTED, [])];
  }

  lemma HandlerFindsNothing()
    ensures CanTurn(false, 3, Before(3), STORY[3]) && Turned(false, 3, Before(3), STORY[3]) == Before(4)
  {
    SelectsNothing(OneJob());
    assert [DoClear] + [] == [DoClear];
  }

  /** A handler that chose no job writes nothing and waits. */
  lemma TakesNothing(sys: Sys)
    requires sys.post.None? && "w" in sys.t.runners && sys.log.Keys == sys.t.jobs.Keys
    ensures
      var s := Server(sys, true, 1, map[1 := Chosen(WANTED, [])], Some(1));
      LongPoll.CanStep(s, Take(1, 0, false))
      && LongPoll.Next(false, 3, s, Take(1, 0, false)) == Server(sys, true, 1, map[1 := Starting(WANTED)], None)
  {
    var s := Server(sys, true, 1, map[1 := Chosen(WANTED, [])], Some(1));
    var e := LongPoll.Next(false, 3, s, Take(1, 0, false));
    assert e.sys.t.jobs == sys.t.jobs && e.sys.log == sys.log;
    assert e.polls == map[1 := Starting(WANTED)];
  }

  lemma HandlerBlocks()
    ensures CanTurn(false, 3, Before(4), STORY[4]) && Turned(false, 3, Before(4), STORY[4]) == Before(5)
  {
    TakesNothing(OneJob());
    assert [DoClear] + [DoStart(1)] == [DoClear, DoStart(1)];
  }

  lemma JobForAnyone()
    ensures CanTurn(false, 3, Before(5), STORY[5]) && Turned(false, 3, Before(5), STORY[5]) == Before(6)
  {
    var s, e := LongPoll.Next(false, 3, Before(5).server, STORY[5].e), Before(6).server;
    assert s.sys.t.jobs == e.sys.t.jobs && s.sys.t.runs == e.sys.t.runs && s.sys.log == e.sys.log;
    assert s.polls == e.polls && s == e;
    assert [DoClear, DoStart(1)] + [DoClear] == [DoClear, DoStart(1), DoClear];
  }

  lemma ClearThenStart(i: nat)
    requires i == 6 || i == 7
    ensures CanTurn(false, 3, Before(i), STORY[i]) && Turned(false, 3, Before(i), STORY[i]) == Before(i + 1)
  {
    var s, e := LongPoll.Next(false, 3, Before(i).server, STORY[i].e), Before(i + 1).server;
    assert s.polls == e.polls && s == e;
    assert Before(i).ready[1..] + [] == Before(i + 1).ready;
  }

  lemma EachTurn(i: nat)
    requires i < 8
    ensures CanTurn(false, 3, Before(i), STORY[i]) && Turned(false, 3, Before(i), STORY[i]) == Before(i + 1)
  {
    if i == 0 { RunnerRegisters(); }
    else if i == 1 { JobForOther(); }
    else if i == 2 { HandlerEnters(); }
    else if i == 3 { HandlerFindsNothing(); }
    else if i == 4 { HandlerBlocks(); }
    else if i == 5 { JobForAnyone(); }
    else { ClearThenStart(i); }
  }

  lemma {:induction false} StoryRuns(i: nat)
    requires i <= 8
    ensures Turns(false, 3, Before(i), STORY[i..]) && Last(false, 3, Before(i), STORY[i..]) == Before(8)
    decreases 8 - i
  {
    if i == 8 {
    } else {
      EachTurn(i);
      assert STORY[i..][0] == STORY[i] && STORY[i..][1..] == STORY[i + 1..];
      StoryRuns(i + 1);
    }
  }

  lemma WakeupCanBeLost()
    ensures Turns(false, 3, Loop(BOOT, []), STORY) && !NoLostWakeup(Last(false, 3, Loop(BOOT, []), STORY).server)
  {
    StoryRuns(0);
    assert STORY[0..] == STORY;
    assert Blocked(Before(8).server, 1);
    assert Eligible(Before(8).server.sys.t.jobs[2], "w", {});
  }
}
