/**
 Maintenance windows: is `now` inside a weekly window, a fixed range, or the
 minutes after a cron firing? Weekly windows live on the local wall clock (the
 comparison of two datetimes with the same zone object ignores the offset), so
 a local instant is a number of microseconds since midnight of day 0, a Monday.
 */
module Maintenance {
  import opened Wrappers

  const SECOND := 1_000_000
  const MINUTE := 60 * SECOND
  const DAY := 1440 * MINUTE

  // ---- weekly windows ---------------------------------------------------------

  /** `duration` in minutes, 0 when absent; it takes precedence over `end`. */
  datatype Weekly = Weekly(days: set<int>, start: Option<int>, end: Option<int>, duration: int)
  {
    predicate Valid() {
      && (start.Some? ==> 0 <= start.value < DAY)
      && (end.Some? ==> 0 <= end.value < DAY)
    }

    /** How long the window of one day stays open; None when there is none. */
    function Length(): (len: Option<int>)
      requires Valid()
      ensures len.Some? ==> len.value > 0
    {
      if start.None? then None
      else if duration > 0 then Some(duration * MINUTE)
      else if end.None? then None
      else if end.value <= start.value then Some(end.value + DAY - start.value)
      else Some(end.value - start.value)
    }

    predicate Targets(day: int) { day % 7 in days }

    /** The window that opens on `day` contains `now`. */
    predicate Open(day: int, now: int)
      requires Valid()
    {
      && Targets(day) && Length().Some?
      && day * DAY + start.value <= now < day * DAY + start.value + Length().value
    }

    /** The windows never outlive the day after they open, or the day after a
        target day is a target day too (or, for windows that open at midnight,
        the day after that). */
    predicate ReachesBackFarEnough()
      requires Valid()
    {
      Length().Some? && Length().value > 2 * DAY - start.value ==>
        forall w :: 0 <= w < 7 && Targets(w) ==> Followed(w)
    }

    predicate Followed(day: int)
      requires start.Some?
    {
      Targets(day + 1) || (start.value == 0 && Targets(day + 2))
    }

    /** What the code looks at: today's and yesterday's window. */
    predicate Checked(now: int)
      requires Valid()
    {
      Open(now / DAY, now) || Open(now / DAY - 1, now)
    }
  }

  /** How long a window stays open: as long as its duration says, or else until the
      clock next shows its end time, a whole day if that is its start time. */
  lemma LengthLaw(w: Weekly)
    requires w.Valid()
    ensures w.Length().Some? <==> w.start.Some? && (w.duration > 0 || w.end.Some?)
    ensures w.start.Some? && w.duration > 0 ==> w.Length().value == w.duration * 60 * 1_000_000
    ensures w.start.Some? && w.duration <= 0 && w.end.Some? ==>
              0 < w.Length().value <= DAY && (w.start.value + w.Length().value) % DAY == w.end.value
  {
    if w.start.Some? && w.duration <= 0 && w.end.Some? {
      var closes := w.start.value + w.Length().value;
      assert closes == w.end.value || closes == w.end.value + DAY;
    }
  }

  /** _weekly_window_active: looks at today's and yesterday's window. */
  method WeeklyWindowActive(w: Weekly, now: int) returns (active: bool)
    requires w.Valid()
    ensures active <==> w.Checked(now)
    ensures active ==> exists day :: w.Open(day, now)
    ensures w.ReachesBackFarEnough() && !active ==> !exists day :: w.Open(day, now)
  {
    var today := now / DAY;
    if w.start.None? { return false; }
    var dates, i := [today, today - 1], 0;
    while i < |dates|
      invariant 0 <= i <= |dates|
      invariant forall k :: 0 <= k < i ==> !w.Open(dates[k], now)
    {
      var date := dates[i];
      i := i + 1;
      if date % 7 !in w.days { continue; }
      var windowStart := date * DAY + w.start.value;
      var windowEnd := windowStart;
      if w.duration > 0 {
        windowEnd := windowStart + w.duration * MINUTE;
      } else if w.end.Some? {
        windowEnd := date * DAY + w.end.value;
        if windowEnd <= windowStart { windowEnd := windowEnd + DAY; }
      } else {
        continue;
      }
      if windowStart <= now < windowEnd {
        assert w.Open(date, now);
        return true;
      }
    }
    active := false;
    assert !w.Open(dates[0], now) && !w.Open(dates[1], now);
    forall day | w.Open(day, now)
      ensures !w.ReachesBackFarEnough()
    {
      if w.ReachesBackFarEnough() {
        TwoDaysSuffice(w, day, now);
      }
    }
  }

  lemma WeekdayShift(day: int, k: int)
    requires 0 <= k <= 2
    ensures (day + k) % 7 == (day % 7 + k) % 7
  {
  }

  /** Between a target day and today, no two days in a row are skipped. */
  lemma {:induction false} TargetsRecur(w: Weekly, day: int, later: int)
    requires w.Valid() && w.Length().Some? && w.Length().value > 2 * DAY - w.start.value
    requires w.ReachesBackFarEnough() && w.Targets(day) && day <= later
    ensures w.Targets(later) || (w.Targets(later - 1) && w.start.value == 0 && w.Targets(later + 1))
    decreases later - day
  {
    if day < later {
      TargetsRecur(w, day, later - 1);
      if w.Targets(later - 1) {
        var weekday := (later - 1) % 7;
        WeekdayShift(later - 1, 1);
        WeekdayShift(later - 1, 2);
        assert weekday % 7 == weekday && w.Targets(weekday);
        assert w.Followed(weekday);
      }
    }
  }

  lemma WindowCoversNextDay(w: Weekly, day: int, now: int)
    requires w.Valid() && w.Length().Some? && w.Length().value > 2 * DAY - w.start.value
    requires w.Targets(day) && now / DAY == day + 1
    ensures w.Open(day, now)
  {
  }

  lemma DayOf(w: Weekly, day: int, now: int)
    requires w.Valid() && w.Open(day, now)
    ensures day <= now / DAY
    ensures day < now / DAY - 1 ==> w.Length().value > 2 * DAY - w.start.value
  {
    var t := now / DAY;
    assert t * DAY <= now < t * DAY + DAY;
  }

  /** Checking today and yesterday misses no open window. */
  lemma TwoDaysSuffice(w: Weekly, day: int, now: int)
    requires w.Valid() && w.ReachesBackFarEnough() && w.Open(day, now)
    ensures w.Checked(now)
  {
    var today := now / DAY;
    DayOf(w, day, now);
    if day < today - 1 {
      TargetsRecur(w, day, today - 1);
      if w.Targets(today - 1) {
        WindowCoversNextDay(w, today - 1, now);
      } else {
        assert w.start.value == 0 && w.Targets(today);
        assert today * DAY <= now < today * DAY + DAY;
      }
    }
  }

  /** The moment a check of two days misses: midnight of the second day after. */
  lemma MissedMoment(w: Weekly, day: int)
    requires w.Valid() && w.Length().Some? && w.Length().value > 2 * DAY - w.start.value
    requires 0 <= day && w.Targets(day) && !w.Targets(day + 1)
    requires !(w.start.value == 0 && w.Targets(day + 2))
    ensures
      var now := (day + 2) * DAY;
      w.Open(day, now) && !w.Checked(now)
  {
    var now := (day + 2) * DAY;
    assert now / DAY == day + 2;
  }

  /** Two days are enough at every moment exactly under that condition. */
  lemma CompletenessIsExact(w: Weekly)
    requires w.Valid()
    ensures w.ReachesBackFarEnough()
       <==> forall day, now :: w.Open(day, now) ==> w.Checked(now)
  {
    if w.ReachesBackFarEnough() {
      forall day, now | w.Open(day, now)
        ensures w.Checked(now)
      {
        TwoDaysSuffice(w, day, now);
      }
    } else {
      var day :| 0 <= day < 7 && w.Targets(day)
                 && !w.Followed(day);
      MissedMoment(w, day);
    }
  }

  /** Every end_time window, and every duration up to a day, is decided exactly. */
  lemma UpToADayIsExact(w: Weekly, now: int)
    requires w.Valid() && w.duration <= 1440
    ensures w.ReachesBackFarEnough()
    ensures (exists day :: w.Open(day, now)) <==> w.Checked(now)
  {
    forall day | w.Open(day, now)
      ensures w.Checked(now)
    {
      TwoDaysSuffice(w, day, now);
    }
  }

  // ---- cron windows -------------------------------------------------------------

  /** `next(x)` is the least firing at or after x. */
  ghost predicate IsNextFire(next: int -> Option<int>, fires: iset<int>) {
    forall x :: match next(x)
      case None => forall f :: f in fires ==> f < x
      case Some(n) => n in fires && x <= n && forall f :: f in fires && x <= f ==> n <= f
  }

  /** Cron firings are whole seconds. */
  ghost predicate WholeSeconds(fires: iset<int>) { forall f :: f in fires ==> f % SECOND == 0 }

  /** _cron_window_active, for a trigger given by its next-fire function. */
  method CronWindowActive(next: int -> Option<int>, duration: int, now: int, ghost fires: iset<int>)
      returns (active: bool)
    requires IsNextFire(next, fires) && WholeSeconds(fires) && 0 <= duration
    ensures active <==> exists f :: f in fires && now - duration * MINUTE < f <= now
  {
    var horizon := now - duration * MINUTE;
    var candidate := next(horizon);
    while candidate.Some? && candidate.value <= now
      invariant candidate.Some? ==> candidate.value in fires && horizon <= candidate.value
      invariant forall f :: f in fires && horizon < f <= now ==> candidate.Some? && candidate.value <= f
      decreases if candidate.Some? then now - candidate.value + 1 else 0
    {
      var end := candidate.value + duration * MINUTE;
      if candidate.value <= now < end {
        return true;
      }
      var passed := candidate.value;
      candidate := next(passed + SECOND);
      forall f | f in fires && horizon < f <= now
        ensures candidate.Some? && candidate.value <= f
      {
        NextSecond(passed, f);
      }
    }
    active := false;
  }

  lemma NextSecond(f: int, g: int)
    requires f % SECOND == 0 && g % SECOND == 0 && f < g
    ensures f + SECOND <= g
  {
  }

  // ---- is_in_maintenance -------------------------------------------------------

  datatype Cron = Cron(next: int -> Option<int>, duration: int)

  /** A window may carry several of the three kinds; `app` and `env` restrict it. */
  datatype Window = Window(
    name: string,
    enabled: bool,
    app: Option<string>,
    env: Option<string>,
    weekly: Option<Weekly>,
    zone: int -> int,            // UTC instant to local wall clock
    range: Option<(int, int)>,
    cron: Option<Cron>
  )

  /** _matches_target: a check without an application, or without an environment,
      is not matched by a window that names one. */
  predicate MatchesTarget(w: Window, app: Option<string>, env: Option<string>) {
    if w.app.Some? && app.Some? && w.app.value != app.value then false
    else if w.app.Some? && app.None? then false
    else if w.env.Some? && env.Some? && w.env.value != env.value then false
    else !(w.env.Some? && env.None?)
  }

  ghost predicate Sound(w: Window, fires: iset<int>) {
    && (w.weekly.Some? ==> w.weekly.value.Valid())
    && (w.cron.Some? ==> IsNextFire(w.cron.value.next, fires) && WholeSeconds(fires))
  }

  /** The window is open, whatever day or firing opened it. */
  ghost predicate IsOpen(w: Window, fires: iset<int>, now: int)
    requires Sound(w, fires)
  {
    || (w.weekly.Some? && exists day :: w.weekly.value.Open(day, w.zone(now)))
    || (w.range.Some? && w.range.value.0 <= now <= w.range.value.1)
    || (w.cron.Some? && exists f :: f in fires && now - w.cron.value.duration * MINUTE < f <= now)
  }

  ghost predicate Suppresses(w: Window, fires: iset<int>, now: int, app: Option<string>, env: Option<string>)
    requires Sound(w, fires)
  {
    && w.enabled && IsOpen(w, fires, now)
    && (w.app.None? || w.app == app) && (w.env.None? || w.env == env)
  }

  /** A weekly window, if any, is one that two days decide. */
  predicate Decidable(w: Window) {
    w.weekly.Some? && w.weekly.value.Valid() ==> w.weekly.value.ReachesBackFarEnough()
  }

  /** One round of the loop in is_in_maintenance. */
  method WindowActive(w: Window, now: int, ghost fires: iset<int>) returns (active: bool)
    requires Sound(w, fires)
    ensures active ==> IsOpen(w, fires, now)
    ensures Decidable(w) && !active ==> !IsOpen(w, fires, now)
  {
    if w.weekly.Some? {
      active := WeeklyWindowActive(w.weekly.value, w.zone(now));
      if active { return; }
    }
    if w.range.Some? && w.range.value.0 <= now <= w.range.value.1 {
      return true;
    }
    if w.cron.Some? && w.cron.value.duration > 0 {
      active := CronWindowActive(w.cron.value.next, w.cron.value.duration, now, fires);
      return;
    }
    active := false;
  }

  /** What the answer calls a window. */
  predicate Calls(w: Window, name: string) {
    (w.name != "" ==> name == w.name) && (w.name == "" ==> name == "(unnamed)")
  }

  /** Window i is open, and no window before it is. */
  ghost predicate FirstOpen(windows: seq<Window>, fires: seq<iset<int>>, now: int,
                            app: Option<string>, env: Option<string>, i: int)
    requires |fires| == |windows|
    requires forall k :: 0 <= k < |windows| ==> Sound(windows[k], fires[k])
  {
    && 0 <= i < |windows| && Suppresses(windows[i], fires[i], now, app, env)
    && forall k :: 0 <= k < i ==> !Suppresses(windows[k], fires[k], now, app, env)
  }

  /** is_in_maintenance: whatever it names is open; and when every weekly window
      is decidable it names the first open window of the list, and answers None
      only when none is open. */
  method IsInMaintenance(windows: seq<Window>, ghost fires: seq<iset<int>>, now: int,
                         app: Option<string>, env: Option<string>) returns (name: Option<string>)
    requires |fires| == |windows|
    requires forall i :: 0 <= i < |windows| ==> Sound(windows[i], fires[i])
    ensures name.Some? ==> name.value != "" && Named(windows, fires, now, app, env, name.value)
    ensures (forall k :: 0 <= k < |windows| ==> Decidable(windows[k])) ==>
      if name.Some? then
        exists i :: FirstOpen(windows, fires, now, app, env, i) && Calls(windows[i], name.value)
      else forall i :: 0 <= i < |windows| ==> !Suppresses(windows[i], fires[i], now, app, env)
  {
    var i := 0;
    while i < |windows|
      invariant 0 <= i <= |windows|
      invariant (forall k :: 0 <= k < |windows| ==> Decidable(windows[k])) ==>
                  forall k :: 0 <= k < i ==> !Suppresses(windows[k], fires[k], now, app, env)
    {
      var w := windows[i];
      if w.enabled && MatchesTarget(w, app, env) {
        var active := WindowActive(w, now, fires[i]);
        if active {
          assert Suppresses(windows[i], fires[i], now, app, env);
          assert (forall k :: 0 <= k < |windows| ==> Decidable(windows[k])) ==>
              FirstOpen(windows, fires, now, app, env, i);
          return Some(if w.name == "" then "(unnamed)" else w.name);
        }
      }
      i := i + 1;
    }
    name := None;
  }

  /** Some open window of the list has this name. */
  ghost predicate Named(windows: seq<Window>, fires: seq<iset<int>>, now: int,
                        app: Option<string>, env: Option<string>, name: string)
    requires |fires| == |windows|
    requires forall k :: 0 <= k < |windows| ==> Sound(windows[k], fires[k])
  {
    exists i :: 0 <= i < |windows| && Suppresses(windows[i], fires[i], now, app, env) && Calls(windows[i], name)
  }
}
