/**
 Stale-run detection: an application that has not completed a run for longer
 than a threshold raises one STALE alert per `realert` period. The dedup row is
 written by the check and removed by every finished run.
 */
module Staleness {
  import opened Wrappers

  datatype Pair = Pair(app: string, env: string)

  /** A row of `runs` that has a finish time. */
  datatype RunRow = RunRow(pair: Pair, complete: bool, finishedAt: int)

  /** The part of the database the check reads and writes: finished runs, and
      the last alert per pair. */
  datatype Db = Db(rows: seq<RunRow>, marks: map<Pair, int>)

  datatype Config = Config(enabled: bool, threshold: int, realert: int)

  datatype App = App(name: string, envs: seq<string>)

  datatype Alert = Alert(pair: Pair, at: int)

  // ---- the history: visits of the check, and finished runs --------------------

  /** Visit is one pass of the check's inner loop; Finish is the end of a run,
      local or remote, which records it and clears the dedup row. */
  datatype Event = Visit(pair: Pair, muted: bool, now: int) | Finish(row: RunRow)

  /** SELECT MAX(finished_at) ... WHERE status='complete'. */
  function LastFinished(rows: seq<RunRow>, p: Pair): Option<int>
    decreases rows
  {
    if rows == [] then None
    else
      var row, before := rows[|rows| - 1], LastFinished(rows[..|rows| - 1], p);
      if row.pair != p || !row.complete then before
      else if before.Some? && before.value >= row.finishedAt then before
      else Some(row.finishedAt)
  }

  lemma {:induction false} LastFinishedIsMax(rows: seq<RunRow>, p: Pair, i: nat)
    requires i < |rows| && rows[i].pair == p && rows[i].complete
    ensures LastFinished(rows, p).Some? && rows[i].finishedAt <= LastFinished(rows, p).value
    decreases rows
  {
    if i < |rows| - 1 {
      LastFinishedIsMax(rows[..|rows| - 1], p, i);
    }
  }

  lemma {:induction false} LastFinishedIsRecorded(rows: seq<RunRow>, p: Pair) returns (i: nat)
    requires LastFinished(rows, p).Some?
    ensures i < |rows| && rows[i] == RunRow(p, true, LastFinished(rows, p).value)
    decreases rows
  {
    var last := |rows| - 1;
    if rows[last] == RunRow(p, true, LastFinished(rows, p).value) {
      i := last;
    } else {
      i := LastFinishedIsRecorded(rows[..last], p);
    }
  }

  predicate Overdue(db: Db, cfg: Config, p: Pair, now: int) {
    LastFinished(db.rows, p).Some? && now - LastFinished(db.rows, p).value > cfg.threshold
  }

  predicate Recent(db: Db, cfg: Config, p: Pair, now: int) {
    p in db.marks && now - db.marks[p] < cfg.realert
  }

  predicate Raises(db: Db, cfg: Config, e: Event) {
    e.Visit? && !e.muted && Overdue(db, cfg, e.pair, e.now) && !Recent(db, cfg, e.pair, e.now)
  }

  function Step(db: Db, cfg: Config, e: Event): Db {
    if e.Finish? then Db(db.rows + [e.row], db.marks - {e.row.pair})
    else if Raises(db, cfg, e) then db.(marks := db.marks[e.pair := e.now])
    else db
  }

  function After(db: Db, cfg: Config, events: seq<Event>): Db
    decreases events
  {
    if events == [] then db
    else Step(After(db, cfg, events[..|events| - 1]), cfg, events[|events| - 1])
  }

  function Alerts(db: Db, cfg: Config, events: seq<Event>): seq<Alert>
    decreases events
  {
    if events == [] then []
    else
      var before, e := events[..|events| - 1], events[|events| - 1];
      Alerts(db, cfg, before)
      + if Raises(After(db, cfg, before), cfg, e) then [Alert(e.pair, e.now)] else []
  }

  lemma OneMore(db: Db, cfg: Config, events: seq<Event>, e: Event)
    ensures After(db, cfg, events + [e]) == Step(After(db, cfg, events), cfg, e)
    ensures Alerts(db, cfg, events + [e]) ==
            Alerts(db, cfg, events)
            + if Raises(After(db, cfg, events), cfg, e) then [Alert(e.pair, e.now)] else []
  {
    assert (events + [e])[..|events|] == events;
  }

  lemma {:induction false} HistoryAppends(db: Db, cfg: Config, first: seq<Event>, second: seq<Event>)
    ensures After(db, cfg, first + second) == After(After(db, cfg, first), cfg, second)
    ensures Alerts(db, cfg, first + second) == Alerts(db, cfg, first) + Alerts(After(db, cfg, first), cfg, second)
    decreases second
  {
    if second == [] {
      assert first + second == first;
    } else {
      var n := |second| - 1;
      HistoryAppends(db, cfg, first, second[..n]);
      assert first + second == (first + second[..n]) + [second[n]];
      OneMore(db, cfg, first + second[..n], second[n]);
    }
  }

  // ---- one check ----------------------------------------------------------------

  /** The environments of an app that the global configuration declares too. */
  function Declared(envs: seq<string>, declared: set<string>): seq<string>
    decreases envs
  {
    if envs == [] then []
    else
      Declared(envs[..|envs| - 1], declared)
      + if envs[|envs| - 1] in declared then [envs[|envs| - 1]] else []
  }

  function VisitsOf(app: string, envs: seq<string>, muted: set<Pair>, now: int): seq<Event> {
    seq(|envs|, i requires 0 <= i < |envs| => Visit(Pair(app, envs[i]), Pair(app, envs[i]) in muted, now))
  }

  /** The inner-loop passes of one check, in order. */
  function CheckVisits(apps: seq<App>, declared: set<string>, muted: set<Pair>, now: int): seq<Event>
    decreases apps
  {
    if apps == [] then []
    else
      var app := apps[|apps| - 1];
      CheckVisits(apps[..|apps| - 1], declared, muted, now)
      + VisitsOf(app.name, Declared(app.envs, declared), muted, now)
  }

  class StaleDatabase {
    var rows: seq<RunRow>
    var marks: map<Pair, int>

    constructor ()
      ensures Contents() == Db([], map[])
    {
      rows, marks := [], map[];
    }

    function Contents(): Db reads this { Db(rows, marks) }

    /** get_app_last_finished_at. */
    method GetAppLastFinishedAt(p: Pair) returns (at: Option<int>)
      ensures at == LastFinished(rows, p)
    {
      at := None;
      var i := 0;
      while i < |rows|
        invariant 0 <= i <= |rows|
        invariant at == LastFinished(rows[..i], p)
      {
        if rows[i].pair == p && rows[i].complete && (at.None? || at.value < rows[i].finishedAt) {
          at := Some(rows[i].finishedAt);
        }
        i := i + 1;
        assert rows[..i][..i - 1] == rows[..i - 1];
      }
      assert rows[..i] == rows;
    }

    /** get_last_stale_alert_at. */
    method GetLastStaleAlertAt(p: Pair) returns (at: Option<int>)
      ensures at.Some? <==> p in marks
      ensures at.Some? ==> at.value == marks[p]
    {
      at := if p in marks then Some(marks[p]) else None;
    }

    /** mark_stale_alerted. */
    method MarkStaleAlerted(p: Pair, now: int)
      modifies this`marks
      ensures marks == old(marks)[p := now]
    {
      marks := marks[p := now];
    }

    /** The end of a run: record it, then clear_stale_alert. */
    method FinishRun(row: RunRow)
      modifies this
      ensures forall cfg :: Contents() == Step(old(Contents()), cfg, Finish(row))
    {
      rows := rows + [row];
      marks := marks - {row.pair};
    }

    /** The body of find_stale_apps's inner loop. */
    method CheckPair(p: Pair, cfg: Config, muted: bool, now: int) returns (raised: bool)
      modifies this`marks
      ensures raised <==> Raises(old(Contents()), cfg, Visit(p, muted, now))
      ensures Contents() == Step(old(Contents()), cfg, Visit(p, muted, now))
    {
      if muted { return false; }
      var lastFinished := GetAppLastFinishedAt(p);
      if lastFinished.None? { return false; }
      if now - lastFinished.value <= cfg.threshold { return false; }
      var lastAlert := GetLastStaleAlertAt(p);
      if lastAlert.Some? && now - lastAlert.value < cfg.realert { return false; }
      MarkStaleAlerted(p, now);
      raised := true;
    }

    /** find_stale_apps's loop over one app's environments. */
    method CheckApp(app: App, cfg: Config, declared: set<string>, muted: set<Pair>, now: int)
        returns (alerts: seq<Alert>)
      modifies this`marks
      ensures
        var visits := VisitsOf(app.name, Declared(app.envs, declared), muted, now);
        Contents() == After(old(Contents()), cfg, visits) && alerts == Alerts(old(Contents()), cfg, visits)
    {
      alerts := [];
      var envs := DeclaredEnvs(app.envs, declared);
      ghost var db, visits := Contents(), VisitsOf(app.name, envs, muted, now);
      var k := 0;
      while k < |envs|
        invariant 0 <= k <= |envs| && rows == old(rows)
        invariant Contents() == After(db, cfg, visits[..k])
        invariant alerts == Alerts(db, cfg, visits[..k])
      {
        var p := Pair(app.name, envs[k]);
        OneMore(db, cfg, visits[..k], visits[k]);
        assert visits[..k] + [visits[k]] == visits[..k + 1];
        var raised := CheckPair(p, cfg, p in muted, now);
        if raised { alerts := alerts + [Alert(p, now)]; }
        k := k + 1;
      }
      assert visits[..k] == visits;
    }

    /** find_stale_apps; `mutedAll` and `muted` are the maintenance answers. */
    method FindStaleApps(apps: seq<App>, cfg: Config, declared: set<string>,
                         mutedAll: bool, muted: set<Pair>, now: int) returns (alerts: seq<Alert>)
      modifies this`marks
      ensures
        var visits := if cfg.enabled && !mutedAll then CheckVisits(apps, declared, muted, now) else [];
        Contents() == After(old(Contents()), cfg, visits) && alerts == Alerts(old(Contents()), cfg, visits)
    {
      alerts := [];
      if !cfg.enabled || mutedAll { return; }
      ghost var db := Contents();
      var i := 0;
      while i < |apps|
        invariant 0 <= i <= |apps| && rows == old(rows)
        invariant Contents() == After(db, cfg, CheckVisits(apps[..i], declared, muted, now))
        invariant alerts == Alerts(db, cfg, CheckVisits(apps[..i], declared, muted, now))
      {
        var more := CheckApp(apps[i], cfg, declared, muted, now);
        HistoryAppends(db, cfg, CheckVisits(apps[..i], declared, muted, now),
                       VisitsOf(apps[i].name, Declared(apps[i].envs, declared), muted, now));
        alerts := alerts + more;
        i := i + 1;
        assert apps[..i][..i - 1] == apps[..i - 1];
      }
      assert apps[..i] == apps;
    }
  }

  method DeclaredEnvs(envs: seq<string>, declared: set<string>) returns (known: seq<string>)
    ensures known == Declared(envs, declared)
  {
    known := [];
    for i := 0 to |envs|
      invariant known == Declared(envs[..i], declared)
    {
      if envs[i] in declared { known := known + [envs[i]]; }
      assert envs[..i + 1][..i] == envs[..i];
    }
    assert envs[..|envs|] == envs;
  }

  // ---- the rate of alerts ---------------------------------------------------------

  /** Event i of the history raises an alert for p. */
  predicate RaisesAt(db: Db, cfg: Config, events: seq<Event>, i: int, p: Pair) {
    && 0 <= i < |events| && events[i].Visit? && events[i].pair == p
    && Raises(After(db, cfg, events[..i]), cfg, events[i])
  }

  /** No run of p ends between events i and k. */
  predicate NoFinish(events: seq<Event>, i: int, k: int, p: Pair) {
    forall m :: 0 <= i < m < k <= |events| ==> !(events[m].Finish? && events[m].row.pair == p)
  }

  lemma AfterPrefix(db: Db, cfg: Config, events: seq<Event>, k: nat)
    requires k < |events|
    ensures After(db, cfg, events[..k + 1]) == Step(After(db, cfg, events[..k]), cfg, events[k])
  {
    assert events[..k + 1] == events[..k] + [events[k]];
    OneMore(db, cfg, events[..k], events[k]);
  }

  /** An alert leaves a mark that later alerts only move forward. */
  lemma {:induction false} MarkStays(db: Db, cfg: Config, events: seq<Event>, i: nat, k: nat, p: Pair)
    requires 0 <= cfg.realert && i < k <= |events|
    requires RaisesAt(db, cfg, events, i, p) && NoFinish(events, i, k, p)
    ensures p in After(db, cfg, events[..k]).marks && events[i].now <= After(db, cfg, events[..k]).marks[p]
    decreases k
  {
    AfterPrefix(db, cfg, events, k - 1);
    if i == k - 1 {
    } else {
      MarkStays(db, cfg, events, i, k - 1, p);
      assert !(events[k - 1].Finish? && events[k - 1].row.pair == p);
      StepRaisesMark(After(db, cfg, events[..k - 1]), cfg, events[k - 1], p);
    }
  }

  lemma StepRaisesMark(db: Db, cfg: Config, e: Event, p: Pair)
    requires 0 <= cfg.realert && p in db.marks && !(e.Finish? && e.row.pair == p)
    ensures p in Step(db, cfg, e).marks && db.marks[p] <= Step(db, cfg, e).marks[p]
  {
  }

  /** Two alerts for a pair with no finished run in between are at least
      `realert` apart, whatever the clock does in between; only a negative
      setting needs the clock not to run backwards. */
  lemma AlertsAreApart(db: Db, cfg: Config, events: seq<Event>, i: nat, k: nat, p: Pair)
    requires i < k && NoFinish(events, i, k, p)
    requires RaisesAt(db, cfg, events, i, p) && RaisesAt(db, cfg, events, k, p)
    requires cfg.realert < 0 ==> events[i].now <= events[k].now
    ensures events[k].now - events[i].now >= cfg.realert
  {
    if 0 <= cfg.realert {
      MarkStays(db, cfg, events, i, k, p);
    }
  }

  /** `at` lists, in order, positions of alerts for p. */
  ghost predicate AlertPositions(db: Db, cfg: Config, events: seq<Event>, at: seq<nat>, p: Pair) {
    && (forall j :: 0 <= j < |at| ==> RaisesAt(db, cfg, events, at[j], p))
    && (forall j, l :: 0 <= j < l < |at| ==> at[j] < at[l])
  }

  lemma {:induction false} AlertsSpread(db: Db, cfg: Config, events: seq<Event>, at: seq<nat>, p: Pair)
    requires 0 <= cfg.realert && at != []
    requires AlertPositions(db, cfg, events, at, p) && NoFinish(events, at[0], at[|at| - 1], p)
    ensures events[at[|at| - 1]].now - events[at[0]].now >= (|at| - 1) * cfg.realert
    decreases at
  {
    var n := |at|;
    if n > 1 {
      var front := at[..n - 1];
      AlertsSpread(db, cfg, events, front, p);
      AlertsAreApart(db, cfg, events, at[n - 2], at[n - 1], p);
      assert (n - 1) * cfg.realert == (n - 2) * cfg.realert + cfg.realert;
    }
  }

  /** At most floor(L / realert) + 1 alerts fall into a closed interval of length
      L with no finished run in it. */
  lemma RateBound(db: Db, cfg: Config, events: seq<Event>, at: seq<nat>, p: Pair, from: int, length: nat)
    requires 0 < cfg.realert && AlertPositions(db, cfg, events, at, p)
    requires at != [] ==> NoFinish(events, at[0], at[|at| - 1], p)
    requires forall j :: 0 <= j < |at| ==> from <= events[at[j]].now <= from + length
    ensures |at| <= length / cfg.realert + 1
  {
    if at != [] {
      AlertsSpread(db, cfg, events, at, p);
      CountByProduct(|at| - 1, length, cfg.realert);
    }
  }

  lemma CountByProduct(n: nat, length: nat, step: nat)
    requires 0 < step && n * step <= length
    ensures n <= length / step
  {
    var q := length / step;
    assert length < (q + 1) * step;
    if q + 1 <= n {
      MultiplyMono(q + 1, n, step);
    }
  }

  lemma MultiplyMono(a: nat, b: nat, step: nat)
    requires a <= b
    ensures a * step <= b * step
  {
    assert b * step - a * step == (b - a) * step;
  }

  /** Every alert is raised for a pair whose last completed run, the latest in
      the table, is older than the threshold. */
  lemma AlertMeansOverdue(db: Db, cfg: Config, events: seq<Event>, i: nat, p: Pair, r: nat)
    requires RaisesAt(db, cfg, events, i, p)
    requires
      var rows := After(db, cfg, events[..i]).rows;
      r < |rows| && rows[r].pair == p && rows[r].complete
    ensures events[i].now - After(db, cfg, events[..i]).rows[r].finishedAt > cfg.threshold
  {
    LastFinishedIsMax(After(db, cfg, events[..i]).rows, p, r);
  }

  /** The separation needs its condition: a run that ends in an error clears the
      dedup row but is not a completed run, so a pair that is overdue is alerted
      again at the very next check, however soon. */
  lemma ErrorRunReopensAlert(db: Db, cfg: Config, p: Pair, finishedAt: int, first: int, second: int)
    requires Overdue(db, cfg, p, first) && !Recent(db, cfg, p, first) && first <= second
    ensures
      Alerts(db, cfg, [Visit(p, false, first), Finish(RunRow(p, false, finishedAt)), Visit(p, false, second)])
      == [Alert(p, first), Alert(p, second)]
  {
    var a, b, c := Visit(p, false, first), Finish(RunRow(p, false, finishedAt)), Visit(p, false, second);
    assert [] + [a] == [a] && [a] + [b] == [a, b] && [a, b] + [c] == [a, b, c];
    OneMore(db, cfg, [], a);
    OneMore(db, cfg, [a], b);
    OneMore(db, cfg, [a, b], c);
    ErrorRunOnlyClears(Step(db, cfg, a), cfg, p, finishedAt, second);
  }

  /** Recording a run that ended in an error leaves the age of the pair as it
      is, and opens the way to an alert. */
  lemma ErrorRunOnlyClears(db: Db, cfg: Config, p: Pair, finishedAt: int, now: int)
    requires Overdue(db, cfg, p, now)
    ensures Raises(Step(db, cfg, Finish(RunRow(p, false, finishedAt))), cfg, Visit(p, false, now))
  {
    var rows := db.rows + [RunRow(p, false, finishedAt)];
    assert rows[..|db.rows|] == db.rows;
    assert LastFinished(rows, p) == LastFinished(db.rows, p);
  }

  /** No alert for p between events i and k. */
  predicate NoAlert(db: Db, cfg: Config, events: seq<Event>, i: int, k: int, p: Pair) {
    forall m :: i < m < k ==> !RaisesAt(db, cfg, events, m, p)
  }

  /** After an alert the mark holds its time until a run of the pair ends, and is
      absent from then on, until the next alert. */
  lemma {:induction false} MarkExactly(db: Db, cfg: Config, events: seq<Event>, i: nat, k: nat, p: Pair)
    requires i < k <= |events| && RaisesAt(db, cfg, events, i, p) && NoAlert(db, cfg, events, i, k, p)
    ensures
      var marks := After(db, cfg, events[..k]).marks;
      if NoFinish(events, i, k, p) then p in marks && marks[p] == events[i].now else p !in marks
    decreases k
  {
    AfterPrefix(db, cfg, events, k - 1);
    if i == k - 1 {
    } else {
      MarkExactly(db, cfg, events, i, k - 1, p);
      assert !RaisesAt(db, cfg, events, k - 1, p);
      MarkStep(After(db, cfg, events[..k - 1]), cfg, events[k - 1], p);
      NoFinishSplits(events, i, k, p);
    }
  }

  /** A step without an alert for p leaves p's mark alone, or removes it. */
  lemma MarkStep(db: Db, cfg: Config, e: Event, p: Pair)
    requires !(Raises(db, cfg, e) && e.pair == p)
    ensures
      var marks := Step(db, cfg, e).marks;
      if e.Finish? && e.row.pair == p then p !in marks
      else (p in marks <==> p in db.marks) && (p in marks ==> marks[p] == db.marks[p])
  {
  }

  lemma NoFinishSplits(events: seq<Event>, i: nat, k: nat, p: Pair)
    requires i < k - 1 && k <= |events|
    ensures NoFinish(events, i, k, p)
       <==> NoFinish(events, i, k - 1, p) && !(events[k - 1].Finish? && events[k - 1].row.pair == p)
  {
  }

  /** Exactly when an alert is repeated early: an unmuted visit of an overdue pair,
      less than `realert` after its last alert, alerts again if and only if a run
      of the pair ended in between, completed or in error. */
  lemma EarlyAlertExactly(db: Db, cfg: Config, events: seq<Event>, i: nat, k: nat, p: Pair)
    requires i < k < |events| && RaisesAt(db, cfg, events, i, p) && NoAlert(db, cfg, events, i, k, p)
    requires events[k].Visit? && events[k].pair == p && !events[k].muted
    requires Overdue(After(db, cfg, events[..k]), cfg, p, events[k].now)
    requires events[k].now - events[i].now < cfg.realert
    ensures RaisesAt(db, cfg, events, k, p)
       <==> exists m :: i < m < k && events[m].Finish? && events[m].row.pair == p
  {
    MarkExactly(db, cfg, events, i, k, p);
  }

  /** The last alert for p before event k, if there is one. */
  ghost predicate LastAlert(db: Db, cfg: Config, events: seq<Event>, i: int, k: int, p: Pair) {
    i < k && RaisesAt(db, cfg, events, i, p) && NoAlert(db, cfg, events, i, k, p)
  }

  lemma {:induction false} NeverMarked(db: Db, cfg: Config, events: seq<Event>, k: nat, p: Pair)
    requires p !in db.marks && k <= |events| && NoAlert(db, cfg, events, -1, k, p)
    ensures p !in After(db, cfg, events[..k]).marks
    decreases k
  {
    if k == 0 {
    } else {
      NeverMarked(db, cfg, events, k - 1, p);
      AfterPrefix(db, cfg, events, k - 1);
      assert !RaisesAt(db, cfg, events, k - 1, p);
      MarkStep(After(db, cfg, events[..k - 1]), cfg, events[k - 1], p);
    }
  }

  lemma {:induction false} FindLastAlert(db: Db, cfg: Config, events: seq<Event>, k: nat, p: Pair)
      returns (i: Option<nat>)
    ensures i.None? ==> NoAlert(db, cfg, events, -1, k, p)
    ensures i.Some? ==> LastAlert(db, cfg, events, i.value, k, p)
    decreases k
  {
    if k == 0 {
      i := None;
    } else if RaisesAt(db, cfg, events, k - 1, p) {
      i := Some(k - 1);
    } else {
      i := FindLastAlert(db, cfg, events, k - 1, p);
    }
  }

  /** Every completed run of p in the table is older than the threshold, and there
      is one. */
  predicate Silent(rows: seq<RunRow>, cfg: Config, p: Pair, now: int) {
    && (exists r :: 0 <= r < |rows| && rows[r].pair == p && rows[r].complete)
    && (forall r :: 0 <= r < |rows| && rows[r].pair == p && rows[r].complete ==>
          now - rows[r].finishedAt > cfg.threshold)
  }

  lemma OverdueIsSilent(db: Db, cfg: Config, p: Pair, now: int)
    ensures Overdue(db, cfg, p, now) <==> Silent(db.rows, cfg, p, now)
  {
    forall r | 0 <= r < |db.rows| && db.rows[r].pair == p && db.rows[r].complete
      ensures LastFinished(db.rows, p).Some? && db.rows[r].finishedAt <= LastFinished(db.rows, p).value
    {
      LastFinishedIsMax(db.rows, p, r);
    }
    if LastFinished(db.rows, p).Some? {
      var r := LastFinishedIsRecorded(db.rows, p);
    }
  }

  /** Which visits alert, over any history: exactly those of a pair that is not
      muted and silent, and whose last alert, if any, is at least `realert` ago or
      was followed by the end of a run of the pair. */
  lemma AlertsExactly(db: Db, cfg: Config, events: seq<Event>, k: nat, p: Pair)
    requires p !in db.marks && k < |events| && events[k].Visit? && events[k].pair == p
    ensures RaisesAt(db, cfg, events, k, p) <==>
              && !events[k].muted && Silent(After(db, cfg, events[..k]).rows, cfg, p, events[k].now)
              && forall i :: 0 <= i && LastAlert(db, cfg, events, i, k, p) && NoFinish(events, i, k, p) ==>
                   events[k].now - events[i].now >= cfg.realert
  {
    OverdueIsSilent(After(db, cfg, events[..k]), cfg, p, events[k].now);
    var last := FindLastAlert(db, cfg, events, k, p);
    if last.None? {
      NeverMarked(db, cfg, events, k, p);
      assert forall i :: 0 <= i ==> !LastAlert(db, cfg, events, i, k, p);
    } else {
      var i := last.value;
      MarkExactly(db, cfg, events, i, k, p);
      forall m | 0 <= m && LastAlert(db, cfg, events, m, k, p) ensures m == i {
        assert m < i ==> !RaisesAt(db, cfg, events, i, p);
        assert i < m ==> !RaisesAt(db, cfg, events, m, p);
      }
    }
  }

  /** A finished run stays in the table. */
  lemma {:induction false} RowStays(db: Db, cfg: Config, events: seq<Event>, j: nat, k: nat)
    requires j < k <= |events| && events[j].Finish?
    ensures events[j].row in After(db, cfg, events[..k]).rows
    decreases k
  {
    AfterPrefix(db, cfg, events, k - 1);
    if j == k - 1 {
      var before := After(db, cfg, events[..j]).rows;
      assert (before + [events[j].row])[|before|] == events[j].row;
    } else {
      RowStays(db, cfg, events, j, k - 1);
    }
  }

  /** A completed run ends the alarm: whatever happens later, no visit raises an
      alert for the pair until the threshold has passed, counted from that run. */
  lemma CompletionSilences(db: Db, cfg: Config, events: seq<Event>, j: nat, k: nat, p: Pair)
    requires j < k < |events| && events[j].Finish? && events[j].row.pair == p && events[j].row.complete
    requires events[k].Visit? && events[k].now - events[j].row.finishedAt <= cfg.threshold
    ensures !RaisesAt(db, cfg, events, k, p)
  {
    RowStays(db, cfg, events, j, k);
    var rows := After(db, cfg, events[..k]).rows;
    var r :| 0 <= r < |rows| && rows[r] == events[j].row;
    LastFinishedIsMax(rows, p, r);
  }
}
