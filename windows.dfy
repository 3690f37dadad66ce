/** Where the bucket windows of the three tiers lie. The source finds a
    snapshot's bucket by trying the buckets one after another; these lemmas
    say, in closed form, which bucket that search finds. */
module Windows {
  import opened Wrappers
  import opened Calendar
  import opened Snapshots
  import opened Analysis

  /** The number of whole weeks from the week holding `t` to the week holding `now`. */
  function WeeksBack(now: int, t: int): int
  {
    (WeekKey(now) - WeekKey(t)) / 7
  }

  /** The one bucket index of the tier whose window can hold `t`; a negative
      value means no bucket index can. */
  function Target(tier: Tier, now: int, t: int): int
  {
    match tier
    case Daily => DayKey(now) - DayKey(t)
    case Weekly => WeeksBack(now, t)
    case Monthly => if WeeksBack(now, t) % 4 == 0 then WeeksBack(now, t) / 4 else -1
  }

  /** Two Sundays are a whole number of weeks apart. */
  lemma SundaysWholeWeeksApart(a: int, b: int)
    ensures WeekKey(a) - WeekKey(b) == 7 * ((WeekKey(a) - WeekKey(b)) / 7)
  {
    SundayOfWeek(a);
    SundayOfWeek(b);
    var x, y := WeekKey(a) + 4, WeekKey(b) + 4;
    assert x == 7 * (x / 7) && y == 7 * (y / 7);
    assert WeekKey(a) - WeekKey(b) == 7 * (x / 7 - y / 7);
  }

  /** Bucket `i` of a tier holds `t` exactly when `i` is the tier's target:
      the bucket windows of one tier never overlap. */
  lemma {:induction false} InBucketExactly(tier: Tier, now: int, t: int, i: nat)
    ensures InBucket(tier, now, t, i) <==> i == Target(tier, now, t)
  {
    match tier
    case Daily =>
      DayShift(now, i);
    case Weekly =>
      var anchor := InWeeks(now, i);
      assert anchor == now - SecondsPerWeek * i;
      WeekShift(now, i);
      InWeekWindow(t, anchor);
      SundaysWholeWeeksApart(now, t);
    case Monthly =>
      var anchor := InMonths(now, i);
      assert anchor == now - SecondsPerWeek * (4 * i);
      WeekShift(now, 4 * i);
      InWeekWindow(t, anchor);
      SundaysWholeWeeksApart(now, t);
  }

  /** The search `(0..count - 1).each ... throw :found` finds the target
      bucket when it is in range and nothing otherwise. */
  lemma {:induction false} BucketClosedForm(rotation: Rotation, tier: Tier, now: int, t: int)
    ensures Bucket(rotation, tier, now, t)
         == (var i := Target(tier, now, t); if 0 <= i < Count(rotation, tier) then Some(i) else None)
  {
    var i := Target(tier, now, t);
    match Bucket(rotation, tier, now, t)
    case Some(b) =>
      InBucketExactly(tier, now, t, b);
    case None =>
      if 0 <= i < Count(rotation, tier) {
        InBucketExactly(tier, now, t, i);
        assert false;
      }
  }

  /** The key a bucket is stored under is the day of the snapshot for the
      daily tier and the Sunday of its week for the other two. */
  lemma {:induction false} BucketKeyOfMember(tier: Tier, now: int, t: int, i: nat)
    requires InBucket(tier, now, t, i)
    ensures BucketKey(tier, now, i) == if tier == Daily then DayKey(t) else WeekKey(t)
  {
    match tier
    case Daily =>
    case Weekly =>
      InWeekWindow(t, InWeeks(now, i));
      SundayOfWeek(InWeeks(now, i));
    case Monthly =>
      InWeekWindow(t, InMonths(now, i));
      SundayOfWeek(InMonths(now, i));
  }

  /** Tier precedence in closed form: the daily tier claims an instant on one
      of the last `daily` days; failing that the weekly tier claims it when its
      week is one of the last `weekly` weeks; failing that the monthly tier
      claims it when its week is a multiple of four weeks back, fewer than
      `4 * monthly`. The key is the day for the daily tier and the Sunday of
      the week otherwise. */
  lemma {:induction false} ClaimClosedForm(rotation: Rotation, now: int, t: int)
    ensures FirstClaim(rotation, now, t)
         == (var days, weeks := DayKey(now) - DayKey(t), WeeksBack(now, t);
             if 0 <= days < rotation.daily then Some(Claim(Daily, days, DayKey(t)))
             else if 0 <= weeks < rotation.weekly then Some(Claim(Weekly, weeks, WeekKey(t)))
             else if 0 <= weeks && weeks % 4 == 0 && weeks / 4 < rotation.monthly
             then Some(Claim(Monthly, weeks / 4, WeekKey(t)))
             else None)
  {
    BucketClosedForm(rotation, Daily, now, t);
    BucketClosedForm(rotation, Weekly, now, t);
    BucketClosedForm(rotation, Monthly, now, t);
    var days, weeks := DayKey(now) - DayKey(t), WeeksBack(now, t);
    if 0 <= days < rotation.daily {
      BucketKeyOfMember(Daily, now, t, days);
    } else if 0 <= weeks < rotation.weekly {
      InBucketExactly(Weekly, now, t, weeks);
      BucketKeyOfMember(Weekly, now, t, weeks);
    } else if 0 <= weeks && weeks % 4 == 0 && weeks / 4 < rotation.monthly {
      InBucketExactly(Monthly, now, t, weeks / 4);
      BucketKeyOfMember(Monthly, now, t, weeks / 4);
    }
  }

  /** A claimed instant is stored under its own day or its own week's Sunday. */
  lemma ClaimKeyIsOwnDayOrWeek(rotation: Rotation, now: int, t: int)
    requires FirstClaim(rotation, now, t).Some?
    ensures var c := FirstClaim(rotation, now, t).value;
      c.key == if c.tier == Daily then DayKey(t) else WeekKey(t)
  {
    ClaimClosedForm(rotation, now, t);
  }

  /** Every window starts at a midnight and ends at the last second of a
      day, so two instants of one UTC day meet the same claim. */
  lemma SameDaySameClaim(rotation: Rotation, now: int, t: int, u: int)
    requires DayKey(t) == DayKey(u)
    ensures FirstClaim(rotation, now, t) == FirstClaim(rotation, now, u)
  {
    assert WeekKey(t) == WeekKey(u);
    assert WeeksBack(now, t) == WeeksBack(now, u);
    ClaimClosedForm(rotation, now, t);
    ClaimClosedForm(rotation, now, u);
  }

  /** When an instant claims a key and a later instant claims the same key
      through the daily tier, that key is a day holding both, so every instant
      between them meets the same daily claim. */
  lemma DailyKeyBetween(rotation: Rotation, now: int, t: int, u: int, v: int)
    requires t <= u <= v
    requires FirstClaim(rotation, now, t).Some? && FirstClaim(rotation, now, v).Some?
    requires FirstClaim(rotation, now, v).value.tier == Daily
    requires FirstClaim(rotation, now, t).value.key == FirstClaim(rotation, now, v).value.key
    ensures FirstClaim(rotation, now, u) == FirstClaim(rotation, now, v)
  {
    ClaimKeyIsOwnDayOrWeek(rotation, now, t);
    ClaimKeyIsOwnDayOrWeek(rotation, now, v);
    DayKeyMonotone(t, u);
    DayKeyMonotone(u, v);
    SameDaySameClaim(rotation, now, u, v);
  }
}
