/**
 Instants are stored as text, `YYYY-MM-DDTHH:MM:SS[.ffffff]+00:00`, and SQL
 compares and sorts the text. The fraction is left out when it is zero, so the
 texts differ in length; the order of characters is still the order of time.
 */
module Timestamps {
  import opened Wrappers
  import Tables

  // ---- strings, compared character by character -----------------------------

  predicate Before(s: string, t: string)
    decreases s
  {
    t != "" && (s == "" || s[0] < t[0] || (s[0] == t[0] && Before(s[1..], t[1..])))
  }

  lemma {:induction false} BeforeByPrefix(x: string, y: string, s: string, t: string)
    requires |x| == |y|
    ensures Before(x + s, y + t) <==> Before(x, y) || (x == y && Before(s, t))
    decreases x
  {
    if x == "" {
      assert x + s == s && y + t == t;
    } else {
      BeforeByPrefix(x[1..], y[1..], s, t);
      assert (x + s)[1..] == x[1..] + s && (y + t)[1..] == y[1..] + t;
      assert x == y <==> x[0] == y[0] && x[1..] == y[1..];
    }
  }

  function Power10(w: nat): nat { if w == 0 then 1 else 10 * Power10(w - 1) }

  /** `n` in exactly `w` decimal digits. */
  function Pad(w: nat, n: nat): (s: string)
    ensures |s| == w
  {
    if w == 0 then "" else Pad(w - 1, n / 10) + ['0' + (n % 10) as char]
  }

  lemma {:induction false} PadOrder(w: nat, a: nat, b: nat)
    requires a < Power10(w) && b < Power10(w)
    ensures Before(Pad(w, a), Pad(w, b)) <==> a < b
    ensures Pad(w, a) == Pad(w, b) <==> a == b
    decreases w
  {
    if w > 0 {
      PadOrder(w - 1, a / 10, b / 10);
      var c, d := '0' + (a % 10) as char, '0' + (b % 10) as char;
      BeforeByPrefix(Pad(w - 1, a / 10), Pad(w - 1, b / 10), [c], [d]);
      assert Before([c], [d]) <==> c < d;
      assert Pad(w, a)[..w - 1] == Pad(w - 1, a / 10) && Pad(w, b)[..w - 1] == Pad(w - 1, b / 10);
      assert Pad(w, a)[w - 1] == c && Pad(w, b)[w - 1] == d;
    }
  }

  /** A number field followed by the rest of the text. */
  lemma FieldOrder(w: nat, a: nat, b: nat, s: string, t: string)
    requires a < Power10(w) && b < Power10(w)
    ensures Before(Pad(w, a) + s, Pad(w, b) + t) <==> a < b || (a == b && Before(s, t))
  {
    PadOrder(w, a, b);
    BeforeByPrefix(Pad(w, a), Pad(w, b), s, t);
  }

  /** The same with a separator in between. */
  lemma SeparatedOrder(w: nat, a: nat, b: nat, sep: char, s: string, t: string)
    requires a < Power10(w) && b < Power10(w)
    ensures Before(Pad(w, a) + ([sep] + s), Pad(w, b) + ([sep] + t)) <==> a < b || (a == b && Before(s, t))
  {
    FieldOrder(w, a, b, [sep] + s, [sep] + t);
    BeforeByPrefix([sep], [sep], s, t);
  }

  // ---- instants ---------------------------------------------------------------

  predicate IsLeap(y: int) { y % 4 == 0 && (y % 100 != 0 || y % 400 == 0) }

  function MonthLength(y: int, m: int): int
    requires 1 <= m <= 12
  {
    if m == 2 then (if IsLeap(y) then 29 else 28)
    else if m == 4 || m == 6 || m == 9 || m == 11 then 30 else 31
  }

  /** A UTC datetime as Python's datetime holds it. */
  datatype Instant = Instant(year: nat, month: nat, day: nat, hour: nat, minute: nat, second: nat, micro: nat)
  {
    predicate Valid() {
      && 1 <= year <= 9999 && 1 <= month <= 12 && 1 <= day <= MonthLength(year, month)
      && hour < 24 && minute < 60 && second < 60 && micro < 1_000_000
    }
  }

  /** datetime.isoformat(). */
  function Iso(i: Instant): string {
    Pad(4, i.year) + (['-'] + (Pad(2, i.month) + (['-'] + (Pad(2, i.day) + (['T'] + Clock(i))))))
  }

  function Clock(i: Instant): string {
    Pad(2, i.hour) + ([':'] + (Pad(2, i.minute) + ([':'] + (Pad(2, i.second) + Fraction(i.micro)))))
  }

  function Fraction(micro: nat): string {
    if micro == 0 then "+00:00" else ['.'] + (Pad(6, micro) + "+00:00")
  }

  /** Days since 1 January of year 1, the calendar's own definition. */
  function DaysBeforeYear(y: int): int
    requires 1 <= y
  {
    365 * (y - 1) + (y - 1) / 4 - (y - 1) / 100 + (y - 1) / 400
  }

  function DaysBeforeMonth(y: int, m: int): int
    requires 1 <= m <= 12
  {
    if m == 1 then 0 else DaysBeforeMonth(y, m - 1) + MonthLength(y, m - 1)
  }

  function Ordinal(i: Instant): int
    requires i.Valid()
  {
    DaysBeforeYear(i.year) + DaysBeforeMonth(i.year, i.month) + i.day
  }

  /** Microseconds on the time line. */
  function Micros(i: Instant): int
    requires i.Valid()
  {
    (((Ordinal(i) * 24 + i.hour) * 60 + i.minute) * 60 + i.second) * 1_000_000 + i.micro
  }

  // ---- the calendar grows with year, month and day -----------------------------

  function YearLength(y: int): int { if IsLeap(y) then 366 else 365 }

  /** Every quotient in DaysBeforeYear grows at its multiples. */
  lemma QuotientSteps(n: int)
    requires 0 <= n
    ensures (n + 1) / 4 == n / 4 + (if (n + 1) % 4 == 0 then 1 else 0)
    ensures (n + 1) / 100 == n / 100 + (if (n + 1) % 100 == 0 then 1 else 0)
    ensures (n + 1) / 400 == n / 400 + (if (n + 1) % 400 == 0 then 1 else 0)
  {
  }

  lemma MultiplesNest(n: int)
    ensures n % 400 == 0 ==> n % 100 == 0
    ensures n % 100 == 0 ==> n % 4 == 0
  {
  }

  lemma YearStep(y: int)
    requires 1 <= y
    ensures DaysBeforeYear(y + 1) == DaysBeforeYear(y) + YearLength(y)
  {
    QuotientSteps(y - 1);
    MultiplesNest(y);
  }

  lemma {:induction false} YearsGrow(y: int, z: int)
    requires 1 <= y < z
    ensures DaysBeforeYear(y) + YearLength(y) <= DaysBeforeYear(z)
    decreases z - y
  {
    YearStep(z - 1);
    if y < z - 1 {
      YearsGrow(y, z - 1);
    }
  }

  lemma {:induction false} MonthsGrow(y: int, m: int, n: int)
    requires 1 <= m < n <= 12
    ensures DaysBeforeMonth(y, m) + MonthLength(y, m) <= DaysBeforeMonth(y, n)
    decreases n - m
  {
    if m < n - 1 {
      MonthsGrow(y, m, n - 1);
    }
  }

  lemma DayFitsYear(i: Instant)
    requires i.Valid()
    ensures 1 <= DaysBeforeMonth(i.year, i.month) + i.day <= YearLength(i.year)
  {
    if i.month > 1 {
      MonthsGrow(i.year, 1, i.month);
    }
    if i.month < 12 {
      MonthsGrow(i.year, i.month, 12);
    }
    DecemberEndsYear(i.year);
  }

  lemma DecemberEndsYear(y: int)
    ensures DaysBeforeMonth(y, 12) + 31 == YearLength(y)
  {
    assert DaysBeforeMonth(y, 2) == DaysBeforeMonth(y, 1) + 31;
    assert DaysBeforeMonth(y, 3) == 31 + MonthLength(y, 2);
    assert DaysBeforeMonth(y, 5) == DaysBeforeMonth(y, 3) + 61;
    assert DaysBeforeMonth(y, 7) == DaysBeforeMonth(y, 5) + 61;
    assert DaysBeforeMonth(y, 9) == DaysBeforeMonth(y, 7) + 62;
    assert DaysBeforeMonth(y, 11) == DaysBeforeMonth(y, 9) + 61;
  }

  predicate DateBefore(a: Instant, b: Instant) {
    a.year < b.year
    || (a.year == b.year && (a.month < b.month || (a.month == b.month && a.day < b.day)))
  }

  lemma OrdinalFollowsDate(a: Instant, b: Instant)
    requires a.Valid() && b.Valid() && DateBefore(a, b)
    ensures Ordinal(a) < Ordinal(b)
  {
    if a.year < b.year {
      YearsGrow(a.year, b.year);
      DayFitsYear(a);
      DayFitsYear(b);
    } else if a.month < b.month {
      MonthsGrow(a.year, a.month, b.month);
    }
  }

  predicate ClockBefore(a: Instant, b: Instant) {
    a.hour < b.hour
    || (a.hour == b.hour && (a.minute < b.minute
        || (a.minute == b.minute && (a.second < b.second
            || (a.second == b.second && a.micro < b.micro)))))
  }

  predicate SameDate(a: Instant, b: Instant) { a.year == b.year && a.month == b.month && a.day == b.day }

  lemma MicrosByFields(a: Instant, b: Instant)
    requires a.Valid() && b.Valid()
    ensures Micros(a) < Micros(b) <==> DateBefore(a, b) || (SameDate(a, b) && ClockBefore(a, b))
  {
    if DateBefore(a, b) {
      OrdinalFollowsDate(a, b);
    } else if DateBefore(b, a) {
      OrdinalFollowsDate(b, a);
    } else {
      assert SameDate(a, b);
    }
  }

  // ---- the time line has no gaps -------------------------------------------------

  /** b is the day after a. */
  predicate DayFollows(a: Instant, b: Instant)
    requires a.Valid()
  {
    if a.day < MonthLength(a.year, a.month) then b.year == a.year && b.month == a.month && b.day == a.day + 1
    else if a.month < 12 then b.year == a.year && b.month == a.month + 1 && b.day == 1
    else b.year == a.year + 1 && b.month == 1 && b.day == 1
  }

  lemma NextDay(a: Instant, b: Instant)
    requires a.Valid() && b.Valid() && DayFollows(a, b)
    ensures Ordinal(b) == Ordinal(a) + 1
  {
    if a.day == MonthLength(a.year, a.month) && a.month == 12 {
      DecemberEndsYear(a.year);
      YearStep(a.year);
    }
  }

  /** b is the microsecond after a, with the carries of clock and calendar. */
  predicate Follows(a: Instant, b: Instant)
    requires a.Valid()
  {
    if a.micro < 999_999 then b == a.(micro := a.micro + 1)
    else if a.second < 59 then b == a.(micro := 0, second := a.second + 1)
    else if a.minute < 59 then b == a.(micro := 0, second := 0, minute := a.minute + 1)
    else if a.hour < 23 then b == a.(micro := 0, second := 0, minute := 0, hour := a.hour + 1)
    else b.micro == 0 && b.second == 0 && b.minute == 0 && b.hour == 0 && DayFollows(a, b)
  }

  /** From one instant to the next the time line goes up by one, through leap years
      and month ends; it starts with day 1. */
  lemma NextInstant(a: Instant, b: Instant)
    requires a.Valid() && b.Valid() && Follows(a, b)
    ensures Micros(b) == Micros(a) + 1
    ensures Ordinal(Instant(1, 1, 1, 0, 0, 0, 0)) == 1
  {
    if a.micro == 999_999 && a.second == 59 && a.minute == 59 && a.hour == 23 {
      NextDay(a, b);
    }
  }

  /** The long months. */
  lemma LongMonths(y: int, m: int)
    requires 1 <= m <= 12
    ensures MonthLength(y, m) == 31 <==> m in {1, 3, 5, 7, 8, 10, 12}
    ensures MonthLength(y, m) == 30 <==> m in {4, 6, 9, 11}
  {
  }

  /** The text has one of two lengths and ends in the offset of UTC. */
  lemma IsoShape(i: Instant)
    requires i.Valid()
    ensures |Iso(i)| == if i.micro == 0 then 25 else 32
    ensures Iso(i)[|Iso(i)| - 6..] == "+00:00"
  {
  }

  lemma FractionOrder(a: nat, b: nat)
    requires a < 1_000_000 && b < 1_000_000
    ensures Before(Fraction(a), Fraction(b)) <==> a < b
  {
    if a != 0 && b != 0 {
      assert Power10(6) == 1_000_000 by { assert Power10(3) == 1000; }
      FieldOrder(6, a, b, "+00:00", "+00:00");
      NotBeforeItself("+00:00");
      BeforeByPrefix(['.'], ['.'], Pad(6, a) + "+00:00", Pad(6, b) + "+00:00");
    } else if a == b {
      NotBeforeItself("+00:00");
    } else {
      assert Fraction(0)[0] == '+';
      assert a != 0 ==> Fraction(a)[0] == '.';
      assert b != 0 ==> Fraction(b)[0] == '.';
    }
  }

  lemma {:induction false} NotBeforeItself(s: string)
    ensures !Before(s, s)
    decreases s
  {
    if s == "" {
    } else {
      NotBeforeItself(s[1..]);
    }
  }

  lemma ClockOrder(a: Instant, b: Instant)
    requires a.Valid() && b.Valid()
    ensures Before(Clock(a), Clock(b)) <==> ClockBefore(a, b)
  {
    FractionOrder(a.micro, b.micro);
    FieldOrder(2, a.second, b.second, Fraction(a.micro), Fraction(b.micro));
    SeparatedOrder(2, a.minute, b.minute, ':',
                   Pad(2, a.second) + Fraction(a.micro), Pad(2, b.second) + Fraction(b.micro));
    SeparatedOrder(2, a.hour, b.hour, ':',
                   Pad(2, a.minute) + ([':'] + (Pad(2, a.second) + Fraction(a.micro))),
                   Pad(2, b.minute) + ([':'] + (Pad(2, b.second) + Fraction(b.micro))));
  }

  lemma IsoByFields(a: Instant, b: Instant)
    requires a.Valid() && b.Valid()
    ensures Before(Iso(a), Iso(b)) <==> DateBefore(a, b) || (SameDate(a, b) && ClockBefore(a, b))
  {
    ClockOrder(a, b);
    SeparatedOrder(2, a.day, b.day, 'T', Clock(a), Clock(b));
    SeparatedOrder(2, a.month, b.month, '-',
                   Pad(2, a.day) + (['T'] + Clock(a)), Pad(2, b.day) + (['T'] + Clock(b)));
    SeparatedOrder(4, a.year, b.year, '-',
                   Pad(2, a.month) + (['-'] + (Pad(2, a.day) + (['T'] + Clock(a)))),
                   Pad(2, b.month) + (['-'] + (Pad(2, b.day) + (['T'] + Clock(b)))));
  }

  /** The order of the texts is the order of time, and equal texts are equal
      instants. */
  lemma TextOrderIsTimeOrder(a: Instant, b: Instant)
    requires a.Valid() && b.Valid()
    ensures Before(Iso(a), Iso(b)) <==> Micros(a) < Micros(b)
    ensures Iso(a) == Iso(b) <==> a == b
    ensures Micros(a) == Micros(b) <==> a == b
  {
    IsoByFields(a, b);
    MicrosByFields(a, b);
    MicrosByFields(b, a);
    NotBeforeItself(Iso(a));
    IsoByFields(b, a);
  }

  /** Comparing the stored text with the cutoff's text finds a row exactly when
      the time line says it is stuck. */
  lemma TextScanIsExact(job: Tables.Job, at: Instant, cutoff: Instant)
    requires at.Valid() && cutoff.Valid()
    requires job.assignedAt == Some(Micros(at))
    ensures job.state == Tables.Assigned && Before(Iso(at), Iso(cutoff))
       <==> Tables.IsStuck(job, Micros(cutoff))
  {
    TextOrderIsTimeOrder(at, cutoff);
  }
}
