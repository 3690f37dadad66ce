/** UTC calendar arithmetic used by the snapshot analyzer.
    An instant is an integer number of seconds since 1970-01-01T00:00:00Z
    (a Thursday); there are no leap seconds, as in Ruby's `Time`. */
module Calendar {

  const SecondsPerDay: int := 86400
  const SecondsPerWeek: int := 7 * 86400

  /** `day_key`: the UTC calendar day of an instant. The source formats the
      day as "%Y%m%d"; two instants get the same string exactly when they
      fall on the same UTC day, so the day number stands for that string. */
  function DayKey(t: int): int
  {
    t / SecondsPerDay
  }

  /** Midnight (00:00:00 UTC) of the day an instant falls on. */
  function StartOfDay(t: int): (r: int)
    ensures r % SecondsPerDay == 0
    ensures r <= t < r + SecondsPerDay
    ensures DayKey(r) == DayKey(t)
  {
    SecondsPerDay * DayKey(t)
  }

  /** `Time#wday`: 0 for Sunday .. 6 for Saturday. */
  function Wday(t: int): (r: int)
    ensures 0 <= r < 7
  {
    (DayKey(t) + 4) % 7
  }

  /** `in_days`, `in_weeks`, `in_months`: the anchors of the buckets. */
  function InDays(now: int, days: int): int
  {
    now - SecondsPerDay * days
  }

  function InWeeks(now: int, weeks: int): int
  {
    InDays(now, weeks * 7)
  }

  function InMonths(now: int, months: int): int
  {
    InWeeks(now, months * 4)
  }

  /** `beginning_of_week`: step back `wday` days, then take midnight of that day.
      The result is the Sunday 00:00:00 that starts the week holding `date`. */
  function BeginningOfWeek(date: int): (r: int)
    ensures r % SecondsPerDay == 0 && Wday(r) == 0
    ensures r <= date < r + SecondsPerWeek
  {
    var bow := date - SecondsPerDay * Wday(date);
    SundayOfWeek(date);
    StartOfDay(bow)
  }

  /** `end_of_week`: step forward to Saturday, then take 23:59:59 of that day.
      The result is the last second of the week holding `date`. */
  function EndOfWeek(date: int): (r: int)
    ensures r == BeginningOfWeek(date) + SecondsPerWeek - 1
    ensures Wday(r) == 6 && date <= r
  {
    var eow := date + SecondsPerDay * (6 - Wday(date));
    SundayOfWeek(date);
    StartOfDay(eow) + 86399
  }

  /** The day number of the Sunday that starts the week holding `t`. */
  function WeekKey(t: int): int
  {
    DayKey(t) - Wday(t)
  }

  lemma SundayOfWeek(date: int)
    ensures DayKey(date - SecondsPerDay * Wday(date)) == WeekKey(date)
    ensures DayKey(date + SecondsPerDay * (6 - Wday(date))) == WeekKey(date) + 6
    ensures (WeekKey(date) + 4) % 7 == 0
  {
    DayShift(date, Wday(date));
    DayShift(date, Wday(date) - 6);
  }

  /** A later instant never falls on an earlier day. */
  lemma DayKeyMonotone(t: int, u: int)
    requires t <= u
    ensures DayKey(t) <= DayKey(u)
  {
    assert t == SecondsPerDay * DayKey(t) + t % SecondsPerDay;
    assert u == SecondsPerDay * DayKey(u) + u % SecondsPerDay;
  }

  /** Moving an instant by whole days moves its day number by as many days. */
  lemma DayShift(t: int, days: int)
    ensures DayKey(t - SecondsPerDay * days) == DayKey(t) - days
  {
    var q, r := t / SecondsPerDay, t % SecondsPerDay;
    assert t - SecondsPerDay * days == SecondsPerDay * (q - days) + r;
  }

  /** Moving an instant by whole weeks keeps its weekday and moves the
      Sunday of its week by as many weeks. */
  lemma WeekShift(t: int, weeks: int)
    ensures Wday(t - SecondsPerWeek * weeks) == Wday(t)
    ensures WeekKey(t - SecondsPerWeek * weeks) == WeekKey(t) - 7 * weeks
  {
    DayShift(t, 7 * weeks);
    var d := DayKey(t) + 4;
    var q, r := d / 7, d % 7;
    assert d - 7 * weeks == 7 * (q - weeks) + r;
  }

  /** An instant lies inside the week window `[beginning_of_week(date),
      end_of_week(date)]` exactly when it is in the same Sunday-to-Saturday week. */
  lemma {:induction false} InWeekWindow(t: int, date: int)
    ensures BeginningOfWeek(date) <= t <= EndOfWeek(date) <==> WeekKey(t) == WeekKey(date)
  {
    var w := WeekKey(date);
    SundayOfWeek(date);
    SundayOfWeek(t);
    assert BeginningOfWeek(date) == SecondsPerDay * w;
    if BeginningOfWeek(date) <= t <= EndOfWeek(date) {
      assert w <= DayKey(t) <= w + 6;
      var k := DayKey(t) - w;
      assert DayKey(t) + 4 == (w + 4) + k;
      assert Wday(t) == k;
    } else {
      assert DayKey(t) < w || DayKey(t) > w + 6;
    }
  }
}
