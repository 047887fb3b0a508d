/**
 A concrete run that loses a wake-up in the eager mode too: the reaper has a job
 on its list, the job's runner is deleted, a handler selects the job as its one
 candidate, and the reaper fails it before the claim. The handler comes back
 empty-handed and waits, with the event clear, beside a second queued job.
 */
module EmptyHanded {
  import opened Wrappers
  import opened Tables
  import opened Protocol
  import opened LongPoll

  const READY := Runner(Some(7), {}, false)
  const FIRST := NewJob(1, None, None, 0)
  const SECOND := NewJob(2, None, None, 2)
  const TAKEN := Assign(FIRST, "x", 1)
  const STUCK := FIRST.(state := Failed, completedAt := Some(101), error := Some("stuck"))
  const WANTED := Ask("w", {}, 1)
  const LISTED := Reaping([Stuck(1, 0)], 0)

  const STORY: seq<Event> := [
    Act(PutRunner("w", READY), true),
    Act(PutRunner("x", READY), true),
    Act(Dispatch(1, 1, None, None, 0), true),
    Act(Claim("x", [1], 1), true),
    Act(ReaperScan([1], 100), false),
    Act(DeleteRunner("x"), true),
    Act(Dispatch(2, 2, None, None, 2), true),
    Clear,
    Enter(1, WANTED),
    Select(1, [1]),
    Act(ReaperDecide(101), false),
    Take(1, 102, false)
  ]

  function OneRunner(): map<Name, Runner> { map["w" := READY] }

  function TwoRunners(): map<Name, Runner> { map["w" := READY, "x" := READY] }

  function One(job: Job, c: Counts, runners: map<Name, Runner>, reaper: Reaper): Sys {
    Sys(Tables(map[1 := job], map[1 := Run(RunQueued, None)], runners), map[1 := c], reaper, None)
  }

  function Two(job: Job, run: Run, c: Counts, reaper: Reaper): Sys {
    Sys(Tables(map[1 := job, 2 := SECOND], map[1 := run, 2 := Run(RunQueued, None)], OneRunner()),
        map[1 := c, 2 := NO_COUNTS], reaper, None)
  }

  /** The state before the i-th event. */
  function Before(i: nat): Server {
    var waiting, released := Run(RunQueued, None), Counts(1, 0, 1, 0, 0);
    match i
    case 0 => BOOT
    case 1 => Server(Sys(Tables(map[], map[], OneRunner()), map[], Idle, None), false, 0, map[], None)
    case 2 => Server(Sys(Tables(map[], map[], TwoRunners()), map[], Idle, None), false, 0, map[], None)
    case 3 => Server(One(FIRST, NO_COUNTS, TwoRunners(), Idle), true, 1, map[], None)
    case 4 => Server(One(TAKEN, Counts(1, 0, 0, 0, 0), TwoRunners(), Idle), true, 1, map[], None)
    case 5 => Server(One(TAKEN, Counts(1, 0, 0, 0, 0), TwoRunners(), LISTED), true, 1, map[], None)
    case 6 => Server(One(FIRST, released, OneRunner(), LISTED), true, 2, map[], None)
    case 7 => Server(Two(FIRST, waiting, released, LISTED), true, 3, map[], None)
    case 8 => Server(Two(FIRST, waiting, released, LISTED), false, 2, map[], None)
    case 9 => Server(Two(FIRST, waiting, released, LISTED), false, 2, map[1 := Looking(WANTED)], Some(1))
    case 10 => Server(Two(FIRST, waiting, released, LISTED), false, 2, map[1 := Chosen(WANTED, [1])], Some(1))
    case 11 => Server(Two(STUCK, Run(RunError, Some(101)), Counts(1, 0, 1, 0, 1), Reaping([], 0)), false, 2,
                      map[1 := Chosen(WANTED, [1])], Some(1))
    case _ => Server(Two(STUCK, Run(RunError, Some(101)), Counts(1, 0, 1, 0, 1), Reaping([], 0)), false, 2,
                     map[1 := Waiting(WANTED, false)], None)
  }

  /** Event i leads from Before(i) to Before(i + 1). */
  ghost predicate Leads(i: nat)
    requires i < 12
  {
    CanStep(Before(i), STORY[i]) && Next(true, 0, Before(i), STORY[i]) == Before(i + 1)
  }

  lemma SameServer(s: Server, e: Server)
    requires s.sys.t.jobs == e.sys.t.jobs && s.sys.t.runs == e.sys.t.runs && s.sys.t.runners == e.sys.t.runners
    requires s.sys.log == e.sys.log && s.sys.reaper == e.sys.reaper && s.sys.post == e.sys.post
    requires s.isSet == e.isSet && s.clears == e.clears && s.polls == e.polls && s.busy == e.busy
    ensures s == e
  {
  }

  lemma RunnersRegister(i: nat)
    requires i < 2
    ensures Leads(i)
  {
    SameServer(Next(true, 0, Before(i), STORY[i]), Before(i + 1));
  }

  lemma FirstIsQueued()
    ensures Leads(2)
  {
    SameServer(Next(true, 0, Before(2), STORY[2]), Before(3));
  }

  lemma FirstIsClaimed()
    ensures Leads(3)
  {
    SameServer(Next(true, 0, Before(3), STORY[3]), Before(4));
  }

  lemma FirstIsListed()
    ensures Leads(4)
  {
    SameServer(Next(true, 0, Before(4), STORY[4]), Before(5));
  }

  lemma RunnerIsDeleted()
    ensures Leads(5)
  {
    assert HeldBy(Before(5).sys.t.jobs[1], "x");
    SameServer(Next(true, 0, Before(5), STORY[5]), Before(6));
  }

  lemma SecondIsQueued()
    ensures Leads(6)
  {
    SameServer(Next(true, 0, Before(6), STORY[6]), Before(7));
  }

  lemma HandlerEnters(i: nat)
    requires i == 7 || i == 8
    ensures Leads(i)
  {
    SameServer(Next(true, 0, Before(i), STORY[i]), Before(i + 1));
  }

  lemma FirstIsOldest()
    ensures IsCandidateList(map[1 := FIRST, 2 := SECOND], "w", {}, 1, [1])
  {
  }

  lemma SelectsFirst(sys: Sys)
    requires sys.t.jobs == map[1 := FIRST, 2 := SECOND]
    ensures
      var s := Server(sys, false, 2, map[1 := Looking(WANTED)], Some(1));
      CanStep(s, Select(1, [1]))
      && Next(true, 0, s, Select(1, [1])) == Server(sys, false, 2, map[1 := Chosen(WANTED, [1])], Some(1))
  {
    FirstIsOldest();
    var s := Server(sys, false, 2, map[1 := Looking(WANTED)], Some(1));
    assert s.polls[1 := Chosen(WANTED, [1])] == map[1 := Chosen(WANTED, [1])];
  }

  lemma HandlerSelects()
    ensures Leads(9)
  {
    SelectsFirst(Before(9).sys);
    assert STORY[9] == Select(1, [1]);
  }

  lemma ReaperFails()
    ensures Leads(10)
  {
    assert LISTED.todo[1..] == [];
    SameServer(Next(true, 0, Before(10), STORY[10]), Before(11));
  }

  lemma NothingToClaim()
    ensures !Hits(Before(11).sys, [1])
    ensures AssignAll(Before(11).sys.t.jobs, (set j | j in [1]), "w", 102) == Before(11).sys.t.jobs
  {
  }

  lemma HandlerWaits()
    ensures Leads(11)
  {
    NothingToClaim();
    SameServer(Next(true, 0, Before(11), STORY[11]), Before(12));
  }

  lemma AllLead(i: nat)
    requires i < 12
    ensures Leads(i)
  {
    if i < 2 { RunnersRegister(i); }
    else if i == 2 { FirstIsQueued(); }
    else if i == 3 { FirstIsClaimed(); }
    else if i == 4 { FirstIsListed(); }
    else if i == 5 { RunnerIsDeleted(); }
    else if i == 6 { SecondIsQueued(); }
    else if i < 9 { HandlerEnters(i); }
    else if i == 9 { HandlerSelects(); }
    else if i == 10 { ReaperFails(); }
    else { HandlerWaits(); }
  }

  lemma {:induction false} StoryRuns(i: nat)
    requires i <= 12
    ensures Runs(true, 0, Before(i), STORY[i..]) && After(true, 0, Before(i), STORY[i..]) == Before(12)
    decreases 12 - i
  {
    if i == 12 {
    } else {
      AllLead(i);
      assert STORY[i..][0] == STORY[i] && STORY[i..][1..] == STORY[i + 1..];
      StoryRuns(i + 1);
    }
  }

  lemma WakeupLostWithEagerRegistration()
    ensures Runs(true, 0, BOOT, STORY) && !NoLostWakeup(After(true, 0, BOOT, STORY))
  {
    StoryRuns(0);
    assert STORY[0..] == STORY;
    assert Blocked(Before(12), 1);
    assert Eligible(Before(12).sys.t.jobs[2], "w", {});
  }
}
