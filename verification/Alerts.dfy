/**
 The alert state machine, which exists twice: in the loop that ends a local run
 and in the loop that ingests a remote worker's results. Both read the recorded
 state of a test, record the new one and decide on an alert.
 */
module Alerts {
  import opened Wrappers

  /** Stands for the key (application, environment, test name). */
  type Test = string

  datatype TestState = Passing | Failing

  datatype Kind = Fail | Resolve

  /** The text of an alert: the result's error message, or a renewal notice. */
  datatype Text = Reported(msg: Option<string>) | RenewalNotice(days: real)

  datatype Alert = Alert(kind: Kind, test: Test, text: Text)

  /** The test's previous certificate: was it recorded as failed, days left. */
  datatype Cert = Cert(failed: bool, days: Option<real>)

  /** What a TLS test adds: the previous certificate, and the days left now. */
  datatype Tls = Tls(previous: Option<Cert>, days: Option<real>)

  /** How one test of a run ended: with a result, or with an exception that no
      test function handled. */
  datatype Outcome =
    | Tested(test: Test, status: string, msg: Option<string>, tls: Option<Tls>)
    | Crashed(test: Test, cause: string)

  predicate IsFail(status: string) { status == "fail" || status == "error" }

  function NewState(status: string): TestState { if status == "pass" then Passing else Failing }

  function Lookup(states: map<Test, TestState>, t: Test): Option<TestState> {
    if t in states then Some(states[t]) else None
  }

  /** determine_alert; None stands for the previous state "unknown". */
  function Determine(previous: Option<TestState>, status: string): Option<Kind> {
    if IsFail(status) && previous != Some(Failing) then Some(Fail)
    else if !IsFail(status) && previous == Some(Failing) then Some(Resolve)
    else None
  }

  /** The certificate counts as renewed. */
  predicate Renewed(previous: Option<TestState>, o: Outcome) {
    && o.Tested? && o.status == "pass" && o.tls.Some? && o.tls.value.days.Some?
    && var now, cert := o.tls.value.days.value, o.tls.value.previous;
       || previous == Some(Failing)
       || (cert.Some? && cert.value.failed)
       || (cert.Some? && cert.value.days.Some? && cert.value.days.value < 30.0 && now >= 60.0)
       || (cert.Some? && cert.value.days.Some? && now - cert.value.days.value >= 30.0)
  }

  // ---- one outcome, on either path ---------------------------------------------

  function Said(kind: Option<Kind>, test: Test, text: Text): seq<Alert> {
    if kind.Some? then [Alert(kind.value, test, text)] else []
  }

  function Recorded(o: Outcome): TestState {
    if o.Tested? then NewState(o.status) else Failing
  }

  /** The end of run_app: a crash is recorded without an alert, a renewed
      certificate always resolves. */
  function LocalAlert(previous: Option<TestState>, o: Outcome): seq<Alert> {
    match o
    case Crashed(_, _) => []
    case Tested(test, status, msg, tls) =>
      if Renewed(previous, o) then [Alert(Resolve, test, RenewalNotice(tls.value.days.value))]
      else Said(Determine(previous, status), test, Reported(msg))
  }

  /** ingest_runner_results: the worker has turned a crash into an `error`
      result, and certificates are not looked at. */
  function RemoteAlert(previous: Option<TestState>, o: Outcome): seq<Alert> {
    match o
    case Crashed(test, cause) => Said(Determine(previous, "error"), test, Reported(Some(cause)))
    case Tested(test, status, msg, _) => Said(Determine(previous, status), test, Reported(msg))
  }

  function States(states: map<Test, TestState>, outcomes: seq<Outcome>): map<Test, TestState>
    decreases outcomes
  {
    if outcomes == [] then states
    else
      var o := outcomes[|outcomes| - 1];
      States(states, outcomes[..|outcomes| - 1])[o.test := Recorded(o)]
  }

  /** What is recorded for the test of outcome i when its turn comes. */
  function PreviousAt(states: map<Test, TestState>, outcomes: seq<Outcome>, i: nat): Option<TestState>
    requires i < |outcomes|
  {
    Lookup(States(states, outcomes[..i]), outcomes[i].test)
  }

  function LocalAlerts(states: map<Test, TestState>, outcomes: seq<Outcome>): seq<Alert>
    decreases outcomes
  {
    if outcomes == [] then []
    else
      var n := |outcomes| - 1;
      LocalAlerts(states, outcomes[..n]) + LocalAlert(PreviousAt(states, outcomes, n), outcomes[n])
  }

  function RemoteAlerts(states: map<Test, TestState>, outcomes: seq<Outcome>): seq<Alert>
    decreases outcomes
  {
    if outcomes == [] then []
    else
      var n := |outcomes| - 1;
      RemoteAlerts(states, outcomes[..n]) + RemoteAlert(PreviousAt(states, outcomes, n), outcomes[n])
  }

  class AppStates {
    var states: map<Test, TestState>

    constructor ()
      ensures states == map[]
    {
      states := map[];
    }

    method Upsert(test: Test, state: TestState)
      modifies this
      ensures states == old(states)[test := state]
    {
      states := states[test := state];
    }

    /** The result loop of run_app. */
    method RunAppLoop(outcomes: seq<Outcome>) returns (alerts: seq<Alert>)
      modifies this
      ensures states == States(old(states), outcomes)
      ensures alerts == LocalAlerts(old(states), outcomes)
    {
      alerts := [];
      for i := 0 to |outcomes|
        invariant states == States(old(states), outcomes[..i])
        invariant alerts == LocalAlerts(old(states), outcomes[..i])
      {
        var o := outcomes[i];
        assert outcomes[..i + 1][..i] == outcomes[..i];
        if o.Crashed? {
          Upsert(o.test, Failing);
          continue;
        }
        var previous := Lookup(states, o.test);
        Upsert(o.test, if o.status == "pass" then Passing else Failing);
        var kind := Determine(previous, o.status);
        var text := Reported(o.msg);
        if o.tls.Some? && o.status == "pass" && o.tls.value.days.Some? {
          var now, cert := o.tls.value.days.value, o.tls.value.previous;
          var renewed := false;
          if previous == Some(Failing) || (cert.Some? && cert.value.failed) {
            renewed := true;
          } else if cert.Some? && cert.value.days.Some? && cert.value.days.value < 30.0 && now >= 60.0 {
            renewed := true;
          } else if cert.Some? && cert.value.days.Some? && now - cert.value.days.value >= 30.0 {
            renewed := true;
          }
          if renewed {
            kind, text := Some(Resolve), RenewalNotice(now);
          }
        }
        if kind.Some? {
          alerts := alerts + [Alert(kind.value, o.test, text)];
        }
      }
      assert outcomes[..|outcomes|] == outcomes;
    }

    /** The result loop of ingest_runner_results, on what the worker sends. */
    method IngestLoop(outcomes: seq<Outcome>) returns (alerts: seq<Alert>)
      modifies this
      ensures states == States(old(states), outcomes)
      ensures alerts == RemoteAlerts(old(states), outcomes)
    {
      alerts := [];
      for i := 0 to |outcomes|
        invariant states == States(old(states), outcomes[..i])
        invariant alerts == RemoteAlerts(old(states), outcomes[..i])
      {
        var o := outcomes[i];
        assert outcomes[..i + 1][..i] == outcomes[..i];
        var status := if o.Tested? then o.status else "error";
        var msg := if o.Tested? then o.msg else Some(o.cause);
        var previous := Lookup(states, o.test);
        Upsert(o.test, if status == "pass" then Passing else Failing);
        var kind := Determine(previous, status);
        if kind.Some? {
          alerts := alerts + [Alert(kind.value, o.test, Reported(msg))];
        }
      }
      assert outcomes[..|outcomes|] == outcomes;
    }
  }

  // ---- when the two paths agree ----------------------------------------------------

  /** The outcomes the two loops treat differently: a crash of a test not yet
      recorded as failing, and a renewed certificate. */
  predicate Diverges(previous: Option<TestState>, o: Outcome) {
    (o.Crashed? && previous != Some(Failing)) || Renewed(previous, o)
  }

  predicate DivergesAt(states: map<Test, TestState>, outcomes: seq<Outcome>, i: nat)
    requires i < |outcomes|
  {
    Diverges(PreviousAt(states, outcomes, i), outcomes[i])
  }

  predicate NoDivergence(states: map<Test, TestState>, outcomes: seq<Outcome>) {
    forall i :: 0 <= i < |outcomes| ==> !DivergesAt(states, outcomes, i)
  }

  lemma FrontDiverges(states: map<Test, TestState>, outcomes: seq<Outcome>, i: nat)
    requires i < |outcomes| - 1
    ensures DivergesAt(states, outcomes[..|outcomes| - 1], i) <==> DivergesAt(states, outcomes, i)
  {
    assert outcomes[..|outcomes| - 1][..i] == outcomes[..i];
  }

  lemma NoDivergenceSplits(states: map<Test, TestState>, outcomes: seq<Outcome>)
    requires outcomes != []
    ensures NoDivergence(states, outcomes)
       <==> NoDivergence(states, outcomes[..|outcomes| - 1]) && !DivergesAt(states, outcomes, |outcomes| - 1)
  {
    var front := outcomes[..|outcomes| - 1];
    forall i | 0 <= i < |front|
      ensures DivergesAt(states, front, i) <==> DivergesAt(states, outcomes, i)
    {
      FrontDiverges(states, outcomes, i);
    }
  }

  /** Renewal notices and FAIL alerts in a list. */
  function Notices(alerts: seq<Alert>): nat
    decreases alerts
  {
    if alerts == [] then 0
    else Notices(alerts[..|alerts| - 1]) + if alerts[|alerts| - 1].text.RenewalNotice? then 1 else 0
  }

  function Fails(alerts: seq<Alert>): nat
    decreases alerts
  {
    if alerts == [] then 0
    else Fails(alerts[..|alerts| - 1]) + if alerts[|alerts| - 1].kind.Fail? then 1 else 0
  }

  lemma CountsAdd(alerts: seq<Alert>, more: seq<Alert>)
    requires |more| <= 1
    ensures Notices(alerts + more) == Notices(alerts) + Notices(more)
    ensures Fails(alerts + more) == Fails(alerts) + Fails(more)
  {
    if more == [] {
      assert alerts + more == alerts;
    } else {
      assert (alerts + more)[..|alerts|] == alerts;
      assert more[..0] == [];
    }
  }

  /** What the last outcome adds to the counts. */
  lemma CountsOfLast(states: map<Test, TestState>, outcomes: seq<Outcome>)
    requires outcomes != []
    ensures
      var n := |outcomes| - 1;
      var previous, o := PreviousAt(states, outcomes, n), outcomes[n];
      && Notices(RemoteAlerts(states, outcomes)) == Notices(RemoteAlerts(states, outcomes[..n]))
      && Notices(LocalAlerts(states, outcomes))
         == Notices(LocalAlerts(states, outcomes[..n])) + (if Renewed(previous, o) then 1 else 0)
      && Fails(RemoteAlerts(states, outcomes)) - Fails(LocalAlerts(states, outcomes))
         == Fails(RemoteAlerts(states, outcomes[..n])) - Fails(LocalAlerts(states, outcomes[..n]))
            + (if o.Crashed? && previous != Some(Failing) then 1 else 0)
  {
    var n := |outcomes| - 1;
    var previous, o := PreviousAt(states, outcomes, n), outcomes[n];
    CountsOfOne(previous, o);
    CountsAdd(LocalAlerts(states, outcomes[..n]), LocalAlert(previous, o));
    CountsAdd(RemoteAlerts(states, outcomes[..n]), RemoteAlert(previous, o));
  }

  /** Only the local path sends notices, and only the remote path sends a FAIL
      the other does not: neither can make up for the other. */
  lemma {:induction false} CountsCompare(states: map<Test, TestState>, outcomes: seq<Outcome>)
    ensures Notices(RemoteAlerts(states, outcomes)) == 0
    ensures Fails(LocalAlerts(states, outcomes)) <= Fails(RemoteAlerts(states, outcomes))
    ensures
      Notices(LocalAlerts(states, outcomes)) == 0 &&
      Fails(LocalAlerts(states, outcomes)) == Fails(RemoteAlerts(states, outcomes))
      ==> NoDivergence(states, outcomes)
    decreases outcomes
  {
    if outcomes == [] {
    } else {
      CountsCompare(states, outcomes[..|outcomes| - 1]);
      CountsOfLast(states, outcomes);
      NoDivergenceSplits(states, outcomes);
    }
  }

  lemma CountsOfOne(previous: Option<TestState>, o: Outcome)
    ensures Notices(RemoteAlert(previous, o)) == 0
    ensures Notices(LocalAlert(previous, o)) == if Renewed(previous, o) then 1 else 0
    ensures Fails(RemoteAlert(previous, o)) == Fails(LocalAlert(previous, o))
              + if o.Crashed? && previous != Some(Failing) then 1 else 0
  {
    var l, r := LocalAlert(previous, o), RemoteAlert(previous, o);
    assert l != [] ==> l[..0] == [];
    assert r != [] ==> r[..0] == [];
  }

  /** The two paths send the same alerts for the same outcomes, whatever was
      recorded before, exactly when no outcome is of the diverging kinds. What
      they record is the same in every case: both loops leave States. */
  lemma {:induction false} PathsAgreeExactly(states: map<Test, TestState>, outcomes: seq<Outcome>)
    ensures LocalAlerts(states, outcomes) == RemoteAlerts(states, outcomes) <==> NoDivergence(states, outcomes)
    decreases outcomes
  {
    CountsCompare(states, outcomes);
    if outcomes != [] && NoDivergence(states, outcomes) {
      NoDivergenceSplits(states, outcomes);
      PathsAgreeExactly(states, outcomes[..|outcomes| - 1]);
    }
  }

  /** For results without TLS data and without crashes the paths always agree. */
  lemma OrdinaryResultsAgree(states: map<Test, TestState>, outcomes: seq<Outcome>)
    requires forall i :: 0 <= i < |outcomes| ==> outcomes[i].Tested? && outcomes[i].tls.None?
    ensures LocalAlerts(states, outcomes) == RemoteAlerts(states, outcomes)
  {
    PathsAgreeExactly(states, outcomes);
  }

  // ---- over any history ---------------------------------------------------------------

  /** Local results, remote results and baseline approvals, in any order. */
  datatype Event = Local(o: Outcome) | Remote(o: Outcome) | Approve(approved: Test)
  {
    function Test(): Test { if Approve? then approved else o.test }

    function State(): TestState { if Approve? then Passing else Recorded(o) }
  }

  function After(states: map<Test, TestState>, history: seq<Event>): map<Test, TestState>
    decreases history
  {
    if history == [] then states
    else
      var e := history[|history| - 1];
      After(states, history[..|history| - 1])[e.Test() := e.State()]
  }

  function AlertsOf(previous: Option<TestState>, e: Event): seq<Alert> {
    match e
    case Local(o) => LocalAlert(previous, o)
    case Remote(o) => RemoteAlert(previous, o)
    case Approve(_) => []
  }

  ghost predicate FailsAt(states: map<Test, TestState>, history: seq<Event>, i: int, t: Test) {
    && 0 <= i < |history|
    && var previous := Lookup(After(states, history[..i]), history[i].Test());
       exists text :: Alert(Fail, t, text) in AlertsOf(previous, history[i])
  }

  lemma AfterOne(states: map<Test, TestState>, history: seq<Event>, k: nat)
    requires k < |history|
    ensures After(states, history[..k + 1])
            == After(states, history[..k])[history[k].Test() := history[k].State()]
  {
    assert history[..k + 1][..k] == history[..k];
  }

  /** The latest event that touched the test decides what is recorded. */
  lemma {:induction false} LastTouch(states: map<Test, TestState>, history: seq<Event>, i: nat, k: nat, t: Test)
      returns (j: nat)
    requires i < k <= |history|
    requires Lookup(After(states, history[..i + 1]), t) == Some(Failing)
    requires Lookup(After(states, history[..k]), t) != Some(Failing)
    ensures i < j < k && history[j].Test() == t && history[j].State() == Passing
    decreases k
  {
    AfterOne(states, history, k - 1);
    if history[k - 1].Test() == t {
      j := k - 1;
    } else {
      j := LastTouch(states, history, i, k - 1, t);
    }
  }

  /** Whoever sends a FAIL for t has just recorded t as failing, and it was not
      recorded so before. */
  lemma FailIsARecordedChange(previous: Option<TestState>, e: Event, a: Alert)
    requires a in AlertsOf(previous, e) && a.kind == Fail
    ensures e.Test() == a.test && e.State() == Failing && previous != Some(Failing)
  {
  }

  lemma FailAt(states: map<Test, TestState>, history: seq<Event>, i: nat, t: Test)
    requires FailsAt(states, history, i, t)
    ensures history[i].Test() == t && history[i].State() == Failing
    ensures Lookup(After(states, history[..i]), t) != Some(Failing)
  {
    var previous := Lookup(After(states, history[..i]), history[i].Test());
    var text :| Alert(Fail, t, text) in AlertsOf(previous, history[i]);
    FailIsARecordedChange(previous, history[i], Alert(Fail, t, text));
  }

  /** Between two FAIL alerts for a test, on either path, a passing state was
      recorded for it: nobody is alerted twice about one outage. */
  lemma FailsAreSeparated(states: map<Test, TestState>, history: seq<Event>, i: nat, k: nat, t: Test)
      returns (j: nat)
    requires i < k && FailsAt(states, history, i, t) && FailsAt(states, history, k, t)
    ensures i < j < k && history[j].Test() == t && history[j].State() == Passing
  {
    FailAt(states, history, i, t);
    FailAt(states, history, k, t);
    AfterOne(states, history, i);
    j := LastTouch(states, history, i, k, t);
  }

  /** A result of status `fail` or `error`, or a crash that the worker reports. */
  predicate Breaks(e: Event) {
    match e
    case Local(o) => o.Tested? && (o.status == "fail" || o.status == "error")
    case Remote(o) => o.Crashed? || o.status == "fail" || o.status == "error"
    case Approve(_) => false
  }

  ghost predicate Sends(previous: Option<TestState>, e: Event, kind: Kind, t: Test) {
    exists text :: Alert(kind, t, text) in AlertsOf(previous, e)
  }

  /** Who is alerted when: FAIL exactly for a breaking result of a test that was
      not recorded as failing; RESOLVE exactly for a result that breaks nothing of
      one that was, or for a renewed certificate; never more than one alert. */
  lemma AlertsExactly(previous: Option<TestState>, e: Event, t: Test)
    ensures Sends(previous, e, Fail, t) <==> t == e.Test() && Breaks(e) && previous != Some(Failing)
    ensures Sends(previous, e, Resolve, t) <==>
              t == e.Test() && !e.Approve? && e.o.Tested?
              && ((!Breaks(e) && previous == Some(Failing)) || (e.Local? && Renewed(previous, e.o)))
    ensures |AlertsOf(previous, e)| <= 1
  {
    if AlertsOf(previous, e) != [] {
      var a := AlertsOf(previous, e)[0];
      assert AlertsOf(previous, e) == [a] && a == Alert(a.kind, a.test, a.text) && a in AlertsOf(previous, e);
    }
  }

  /** For the three statuses a test may have, an alert is a change of what is
      recorded: FAIL when it turns failing, RESOLVE when it stops to be. */
  lemma AlertsAreChanges(previous: Option<TestState>, e: Event, t: Test)
    requires !e.Approve? && e.o.Tested? && e.o.tls.None? && e.o.status in {"pass", "fail", "error"}
    ensures Sends(previous, e, Fail, t) <==> t == e.Test() && previous != Some(Failing) && e.State() == Failing
    ensures Sends(previous, e, Resolve, t) <==> t == e.Test() && previous == Some(Failing) && e.State() == Passing
  {
    AlertsExactly(previous, e, t);
  }

  /** A RESOLVE is only ever said of a test that is now recorded as passing,
      exactly for the statuses pass, fail and error: any other status of a
      failing test resolves the alert while the record stays failing. */
  lemma ResolveIsTruthfulExactly(status: string)
    ensures (forall previous :: Determine(previous, status) == Some(Resolve) ==> NewState(status) == Passing)
       <==> status == "pass" || status == "fail" || status == "error"
  {
    if status != "pass" && status != "fail" && status != "error" {
      assert Determine(Some(Failing), status) == Some(Resolve);
    }
  }
}
