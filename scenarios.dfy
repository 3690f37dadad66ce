/** Worked examples: the fixtures of the repository's tests, run through the
    analyzer, with the outcome each test asserts proved about the model. */
module Scenarios {
  import opened Wrappers
  import opened Calendar
  import opened Snapshots
  import opened Analysis
  import opened Windows
  import opened Retention
  import opened Outcomes
  import opened Analyzer

  /** 2012-05-01T00:00:00Z, the instant the tests fix as `now`. */
  const Now: int := 1335830400

  /** The rotation the tests pass: 7 daily, 12 weekly, 14 monthly buckets. */
  const TestRotation: Rotation := Rotation(7, 12, 14)

  /** The snapshot `days` days before `Now`, plus `seconds`. */
  function Taken(id: string, volume: string, status: string, days: int, seconds: int): Snapshot
  {
    Snapshot(id, volume, status, Now - 86400 * days + seconds)
  }

  /** The safety-mechanism fixture: one volume whose only snapshots are 60 and
      90 weeks old, in inventory order. (Its volume id is `nil` in the
      fixture; the analyzer never reads it.) */
  const Ancient: seq<Snapshot> := [
    Taken("333333", "", "completed", 7 * 60, 0),
    Taken("444444", "", "completed", 7 * 90, 0)
  ]

  /** Neither fixture snapshot falls in a bucket: 60 weeks is a multiple of
      four but 60 / 4 = 15 is past the 14 monthly buckets, and 90 weeks is no
      multiple of four. */
  lemma AncientUnclaimed()
    ensures ClaimOf(Ancient[0], TestRotation, Now).None?
    ensures ClaimOf(Ancient[1], TestRotation, Now).None?
  {
    ClaimClosedForm(TestRotation, Now, Ancient[0].createdAt);
    ClaimClosedForm(TestRotation, Now, Ancient[1].createdAt);
  }

  /** Sorting the fixture puts the older snapshot first. */
  lemma AncientSorted()
    ensures SortByCreation(Ancient) == [Ancient[1], Ancient[0]]
  {
    assert SortByCreation(Ancient[1..]) == [Ancient[1]];
    assert SortByCreation(Ancient) == Insert(Ancient[0], [Ancient[1]]);
    assert Insert(Ancient[0], [Ancient[1]]) == [Ancient[1]] + Insert(Ancient[0], []);
  }

  /** Neither snapshot is claimed, so the run ends with nothing saved. */
  lemma AncientRun()
    ensures Final([Ancient[1], Ancient[0]], TestRotation, Now) == Empty
  {
    var sorted := [Ancient[1], Ancient[0]];
    AncientUnclaimed();
    RunUnclaimed(sorted, TestRotation, Now, 1, Empty);
    RunUnclaimed(sorted, TestRotation, Now, 2, Empty);
  }

  /** With nothing saved, `to_save` of two snapshots falls back to the newest
      position and the other position is deleted. */
  lemma NothingSavedOfTwo()
    ensures SavePositions(Empty, 2) == [1]
    ensures DeletePositions(Empty, 2) == [0]
  {
    assert Positions(2) == [0, 1];
    assert Minus([1], [1]) == [];
    assert Minus([0, 1], [1]) == [0] + Minus([1], [1]);
  }

  /** `test_safety_mechanism`: with no snapshot in any bucket the analyzer
      still keeps one, the newest ("333333"), and deletes the other. */
  method SafetyMechanism() returns (save: seq<Snapshot>, skip: seq<Snapshot>, delete: seq<Snapshot>)
    ensures |save| == 1 && save[0].snapshotId == "333333"
    ensures skip == []
    ensures |delete| == 1 && delete[0].snapshotId == "444444"
  {
    AncientSorted();
    var analyzer := new SnapshotAnalyzer(Ancient, TestRotation, Now);
    AncientRun();
    NothingSavedOfTwo();
    save := analyzer.ToSave();
    skip := analyzer.ToSkip();
    delete := analyzer.ToDelete();
  }

  /** `Now` is midnight at the start of a Tuesday. */
  lemma NowIsTuesdayMidnight()
    ensures TuesdayMidnight(Now)
  {
  }

  /** The claim on an instant `days` days (and less than one more day)
      before a Tuesday midnight whose day is `d`, with the week arithmetic of
      the closed form done: `wd` is the weekday of the instant and `weeks` the
      number of whole weeks back. */
  function DaysBackClaim(rotation: Rotation, d: int, days: int): Option<Claim>
  {
    var wd := (2 - days) % 7;
    var weeks := (days + wd - 2) / 7;
    if 0 <= days < rotation.daily then Some(Claim(Daily, days, d - days))
    else if 0 <= weeks < rotation.weekly then Some(Claim(Weekly, weeks, d - days - wd))
    else if 0 <= weeks && weeks % 4 == 0 && weeks / 4 < rotation.monthly
    then Some(Claim(Monthly, weeks / 4, d - days - wd))
    else None
  }

  /** Midnight at the start of a Tuesday. */
  predicate TuesdayMidnight(now: int)
  {
    now % 86400 == 0 && Wday(now) == 2
  }

  /** The day and the weekday of an instant `days` days (and `seconds`
      seconds) back from a Tuesday midnight. */
  lemma DaysBackCalendar(now: int, t: int, days: int, seconds: int)
    requires TuesdayMidnight(now)
    requires 0 <= seconds < 86400 && t == now - 86400 * days + seconds
    ensures DayKey(t) == DayKey(now) - days
    ensures Wday(t) == (2 - days) % 7
  {
    var d := DayKey(now);
    assert DayKey(now + seconds) == d;
    DayShift(now + seconds, days);
    assert t == now + seconds - 86400 * days;
    var q := (d + 4) / 7;
    assert d + 4 == 7 * q + 2;
    assert d - days + 4 == 7 * q + (2 - days);
  }

  /** The day difference, the week key and the whole weeks back of such an
      instant. */
  lemma DaysBackWeeks(now: int, t: int, days: int, seconds: int)
    requires TuesdayMidnight(now)
    requires 0 <= seconds < 86400 && t == now - 86400 * days + seconds
    ensures var wd := (2 - days) % 7;
      && DayKey(now) - DayKey(t) == days
      && WeekKey(t) == DayKey(now) - days - wd
      && WeeksBack(now, t) == (days + wd - 2) / 7
  {
    DaysBackCalendar(now, t, days, seconds);
  }

  /** The closed form of the tiers, specialised to instants counted back in
      days from a Tuesday midnight. */
  lemma ClaimDaysBack(rotation: Rotation, now: int, t: int, days: int, seconds: int)
    requires TuesdayMidnight(now)
    requires 0 <= seconds < 86400 && t == now - 86400 * days + seconds
    ensures FirstClaim(rotation, now, t) == DaysBackClaim(rotation, DayKey(now), days)
  {
    DaysBackWeeks(now, t, days, seconds);
    ClaimClosedForm(rotation, now, t);
  }

  /** A scaled-down version of the daily-series fixture: two buckets per
      tier and eight snapshots around the bucket boundaries, one of them
      pending, before any Tuesday midnight `now` (such as `Now`). */
  const Small: Rotation := Rotation(2, 2, 2)

  /** The series, oldest first, by age and status. With `now` a Tuesday:
      30 days back is the Sunday four weeks back, monthly bucket 1; 10 days
      back is two weeks back, in no bucket; 9 days back (a Sunday) and 6
      days back are both in weekly bucket 1; 1 day back (three times, the
      middle one pending) is daily bucket 1; 0 days back is daily bucket 0. */
  ghost predicate IsSeries(now: int, s: seq<Snapshot>)
  {
    && TuesdayMidnight(now) && |s| == 8
    && s[0].createdAt == now - 86400 * 30
    && s[1].createdAt == now - 86400 * 10
    && s[2].createdAt == now - 86400 * 9
    && s[3].createdAt == now - 86400 * 6
    && s[4].createdAt == now - 86400
    && s[5].createdAt == now - 86400 + 60
    && s[6].createdAt == now - 86400 + 3600
    && s[7].createdAt == now
    && (forall i :: 0 <= i < 8 ==> (s[i].Completed() <==> i != 5))
  }

  lemma SeriesSorted(now: int, s: seq<Snapshot>)
    requires IsSeries(now, s)
    ensures SortedByCreation(s)
  {
  }

  /** The oldest snapshot is the only one the monthly tier claims. */
  lemma MonthlyClaim(now: int, s: seq<Snapshot>)
    requires IsSeries(now, s)
    ensures ClaimOf(s[0], Small, now) == Some(Claim(Monthly, 1, DayKey(now) - 30))
  {
    assert s[0].Completed();
    ClaimDaysBack(Small, now, s[0].createdAt, 30, 0);
    assert DaysBackClaim(Small, DayKey(now), 30) == Some(Claim(Monthly, 1, DayKey(now) - 30));
  }

  /** Ten days back is in no bucket; 9 and 6 days back share weekly bucket 1,
      stored under the Sunday 9 days back. */
  lemma WeeklyClaims(now: int, s: seq<Snapshot>)
    requires IsSeries(now, s)
    ensures ClaimOf(s[1], Small, now) == None
    ensures ClaimOf(s[2], Small, now) == Some(Claim(Weekly, 1, DayKey(now) - 9))
    ensures ClaimOf(s[3], Small, now) == Some(Claim(Weekly, 1, DayKey(now) - 9))
  {
    var d := DayKey(now);
    assert s[1].Completed() && s[2].Completed() && s[3].Completed();
    ClaimDaysBack(Small, now, s[1].createdAt, 10, 0);
    assert DaysBackClaim(Small, d, 10) == None;
    ClaimDaysBack(Small, now, s[2].createdAt, 9, 0);
    assert DaysBackClaim(Small, d, 9) == Some(Claim(Weekly, 1, d - 9));
    ClaimDaysBack(Small, now, s[3].createdAt, 6, 0);
    assert DaysBackClaim(Small, d, 6) == Some(Claim(Weekly, 1, d - 9));
  }

  /** The completed snapshots of yesterday fall in daily bucket 1. */
  lemma YesterdayClaims(now: int, s: seq<Snapshot>)
    requires IsSeries(now, s)
    ensures ClaimOf(s[4], Small, now) == Some(Claim(Daily, 1, DayKey(now) - 1))
    ensures ClaimOf(s[6], Small, now) == Some(Claim(Daily, 1, DayKey(now) - 1))
  {
    var d := DayKey(now);
    assert s[4].Completed() && s[6].Completed();
    ClaimDaysBack(Small, now, s[4].createdAt, 1, 0);
    ClaimDaysBack(Small, now, s[6].createdAt, 1, 3600);
    assert DaysBackClaim(Small, d, 1) == Some(Claim(Daily, 1, d - 1));
  }

  /** The newest snapshot falls in daily bucket 0. */
  lemma TodayClaim(now: int, s: seq<Snapshot>)
    requires IsSeries(now, s)
    ensures ClaimOf(s[7], Small, now) == Some(Claim(Daily, 0, DayKey(now)))
  {
    var d := DayKey(now);
    assert s[7].Completed();
    ClaimDaysBack(Small, now, s[7].createdAt, 0, 0);
    assert DaysBackClaim(Small, d, 0) == Some(Claim(Daily, 0, d));
  }

  /** What the run of the series depends on: each snapshot's claim, and
      which unclaimed snapshots are completed. `d` is the day of `now`. */
  ghost predicate SeriesClaims(now: int, d: int, s: seq<Snapshot>)
  {
    && |s| == 8
    && ClaimOf(s[0], Small, now) == Some(Claim(Monthly, 1, d - 30))
    && ClaimOf(s[1], Small, now) == None && s[1].Completed()
    && ClaimOf(s[2], Small, now) == Some(Claim(Weekly, 1, d - 9))
    && ClaimOf(s[3], Small, now) == Some(Claim(Weekly, 1, d - 9))
    && ClaimOf(s[4], Small, now) == Some(Claim(Daily, 1, d - 1))
    && ClaimOf(s[5], Small, now) == None && !s[5].Completed()
    && ClaimOf(s[6], Small, now) == Some(Claim(Daily, 1, d - 1))
    && ClaimOf(s[7], Small, now) == Some(Claim(Daily, 0, d))
  }

  /** The claims of the series, as the four claim lemmas give them. */
  lemma ClaimsOfSeries(now: int, s: seq<Snapshot>)
    requires IsSeries(now, s)
    ensures SeriesClaims(now, DayKey(now), s)
  {
    MonthlyClaim(now, s);
    WeeklyClaims(now, s);
    YesterdayClaims(now, s);
    TodayClaim(now, s);
    assert s[1].Completed() && !s[5].Completed();
  }

  /** The first four steps: the monthly claimant takes its key, and of the
      two weekly claimants the older keeps the key. */
  lemma SeriesOlder(now: int, d: int, s: seq<Snapshot>)
    requires SeriesClaims(now, d, s)
    ensures Run(s, Small, now, 4) == Tally([d - 30, d - 9], map[d - 30 := 0, d - 9 := 2], [])
  {
    RunClaimed(s, Small, now, 1, Empty, Claim(Monthly, 1, d - 30));
    var t := Tally([d - 30], map[d - 30 := 0], []);
    RunUnclaimed(s, Small, now, 2, t);
    RunClaimed(s, Small, now, 3, t, Claim(Weekly, 1, d - 9));
    t := Tally([d - 30, d - 9], map[d - 30 := 0, d - 9 := 2], []);
    RunClaimed(s, Small, now, 4, t, Claim(Weekly, 1, d - 9));
  }

  /** Steps five and six: the first daily claimant of yesterday takes its
      key, and the pending snapshot is skipped. */
  lemma SeriesYesterday(now: int, d: int, s: seq<Snapshot>)
    requires SeriesClaims(now, d, s)
    ensures Run(s, Small, now, 6) == Tally([d - 30, d - 9, d - 1], map[d - 30 := 0, d - 9 := 2, d - 1 := 4], [5])
  {
    SeriesOlder(now, d, s);
    var t := Tally([d - 30, d - 9], map[d - 30 := 0, d - 9 := 2], []);
    RunClaimed(s, Small, now, 5, t, Claim(Daily, 1, d - 1));
    t := Tally([d - 30, d - 9, d - 1], map[d - 30 := 0, d - 9 := 2, d - 1 := 4], []);
    RunUnclaimed(s, Small, now, 6, t);
  }

  /** Step seven: the later daily claimant of yesterday replaces the
      earlier one. */
  lemma SeriesSeventh(now: int, d: int, s: seq<Snapshot>)
    requires SeriesClaims(now, d, s)
    ensures Run(s, Small, now, 7) == Tally([d - 30, d - 9, d - 1], map[d - 30 := 0, d - 9 := 2, d - 1 := 6], [5])
  {
    SeriesYesterday(now, d, s);
    var t := Tally([d - 30, d - 9, d - 1], map[d - 30 := 0, d - 9 := 2, d - 1 := 4], [5]);
    RunClaimed(s, Small, now, 7, t, Claim(Daily, 1, d - 1));
  }

  /** The last step: today's snapshot takes today's key. */
  lemma SeriesOutcome(now: int, d: int, s: seq<Snapshot>)
    requires SeriesClaims(now, d, s)
    ensures Final(s, Small, now)
         == Tally([d - 30, d - 9, d - 1, d], map[d - 30 := 0, d - 9 := 2, d - 1 := 6, d := 7], [5])
  {
    SeriesSeventh(now, d, s);
    var t := Tally([d - 30, d - 9, d - 1], map[d - 30 := 0, d - 9 := 2, d - 1 := 6], [5]);
    RunClaimed(s, Small, now, 8, t, Claim(Daily, 0, d));
  }

  /** The final state is consistent with eight snapshots. */
  lemma SeriesWellFormed(d: int, tally: Tally)
    requires tally == Tally([d - 30, d - 9, d - 1, d], map[d - 30 := 0, d - 9 := 2, d - 1 := 6, d := 7], [5])
    ensures WellFormed(tally, 8)
  {
    assert tally.saved.Keys == {d - 30, d - 9, d - 1, d};
  }

  /** `to_save` of the final state, as positions. */
  lemma SeriesSave(d: int, tally: Tally)
    requires tally == Tally([d - 30, d - 9, d - 1, d], map[d - 30 := 0, d - 9 := 2, d - 1 := 6, d := 7], [5])
    ensures WellFormed(tally, 8)
    ensures SavePositions(tally, 8) == [0, 2, 6, 7]
  {
    SeriesWellFormed(d, tally);
    var save := SavePositions(tally, 8);
    assert |save| == 4;
    assert save[0] == 0 && save[1] == 2 && save[2] == 6 && save[3] == 7;
  }

  /** The ascending list of the positions below 8 in neither `to_save` nor
      `to_skip`. */
  lemma SeriesDelete(delete: seq<nat>, save: seq<nat>, skip: seq<nat>)
    requires save == [0, 2, 6, 7] && skip == [5] && Ascending(delete)
    requires forall j :: j in delete <==> 0 <= j < 8 && j !in save && j !in skip
    ensures delete == [1, 3, 4]
  {
    forall j
      ensures j in delete <==> j in [1, 3, 4]
    {
    }
    AscendingByMembers(delete, [1, 3, 4]);
  }

  /** The three lists of the series' final state, as positions. */
  lemma SeriesPositions(now: int, d: int, series: seq<Snapshot>)
    requires SeriesClaims(now, d, series)
    ensures var tally := Final(series, Small, now);
      && WellFormed(tally, 8)
      && SavePositions(tally, 8) == [0, 2, 6, 7]
      && tally.skip == [5]
      && DeletePositions(tally, 8) == [1, 3, 4]
  {
    SeriesOutcome(now, d, series);
    var tally := Final(series, Small, now);
    SeriesSave(d, tally);
    DeleteTheorem(series, Small, now);
    SeriesDelete(DeletePositions(tally, 8), SavePositions(tally, 8), tally.skip);
  }

  /** The same lists, as snapshots. */
  lemma SeriesLists(series: seq<Snapshot>, tally: Tally)
    requires |series| == 8 && WellFormed(tally, 8)
    requires SavePositions(tally, 8) == [0, 2, 6, 7] && tally.skip == [5]
    requires DeletePositions(tally, 8) == [1, 3, 4]
    ensures Select(series, SavePositions(tally, 8)) == [series[0], series[2], series[6], series[7]]
    ensures Select(series, tally.skip) == [series[5]]
    ensures Select(series, DeletePositions(tally, 8)) == [series[1], series[3], series[4]]
  {
  }

  /** The series through the analyzer: `to_save` in insertion order,
      `to_skip` the pending one, `to_delete` the rest in sorted order. */
  method ScaledDownSeries(now: int, series: seq<Snapshot>)
    returns (save: seq<Snapshot>, skip: seq<Snapshot>, delete: seq<Snapshot>)
    requires IsSeries(now, series)
    ensures save == [series[0], series[2], series[6], series[7]]
    ensures skip == [series[5]]
    ensures delete == [series[1], series[3], series[4]]
  {
    SeriesSorted(now, series);
    SortSortedIsIdentity(series);
    var analyzer := new SnapshotAnalyzer(series, Small, now);
    ClaimsOfSeries(now, series);
    SeriesPositions(now, DayKey(now), series);
    SeriesLists(series, Final(series, Small, now));
    save := analyzer.ToSave();
    skip := analyzer.ToSkip();
    delete := analyzer.ToDelete();
  }
}
