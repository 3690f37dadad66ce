# ebs_prune_snapshot: the retention decision, in Dafny

`ebs_prune_snapshot` prunes the EBS snapshots of an AWS account. It groups the
account's snapshots by volume. For each volume, a `SnapshotAnalyzer` sorts the
snapshots by creation time and walks them once. Each snapshot is handled as follows:

- one that is not `completed` goes to `to_skip`;
- a completed one is offered to the daily tier, then the weekly tier, then the monthly tier;
- the first tier with a bucket window holding it claims it, and stores it in the one
  hash `@to_save` under a date key.

The tiers write differently:

- the daily tier writes with `=`, so the newest snapshot of a day wins;
- the weekly and monthly tiers write with `||=`, so the oldest snapshot of a week wins.

The analyzer then produces three lists:

- `to_save` is the hash's values, or the newest snapshot alone when the hash is empty
  (the safety floor);
- `to_skip` is the snapshots that are not completed;
- `to_delete` is everything else.

The model covers:

- `Snapshots` (`snapshot.dfy`):
  - the `Snapshot` record, with `completed?` and `<=>`;
  - the `Rotation` record, with its defaults;
  - the sort (a stable insertion sort).
- `Calendar` (`calendar.dfy`):
  - UTC instants as integer seconds;
  - `day_key`, `wday`, `in_days`/`in_weeks`/`in_months`, `beginning_of_week` and
    `end_of_week`.
- `Analysis` (`analysis.dfy`): the decision as functions:
  - the first-match search of a tier (`catch :found`);
  - the claim of a snapshot;
  - one loop iteration (`Offer`) and the loop after `k` snapshots (`Run`);
  - `to_save`, `to_delete` and `Array#-`.
- `Windows` (`windows.dfy`): which bucket the search finds, in closed form.
- `Retention` (`retention.dfy`): the loop invariants of `analyze_snapshots`. A key is in
  `@to_save` exactly when some snapshot claims it, and it holds that key's winner:
  - the last daily claimant when the key has one;
  - otherwise the first claimant.
- `Outcomes` (`outcomes.dfy`): what the three lists promise:
  - they partition the input;
  - the safety floor;
  - tier precedence and the keep-newest and keep-oldest rules;
  - the bound on the size of `to_save`.
- `Analyzer` (`analyzer.dfy`): the class `SnapshotAnalyzer`. Its fields are `@to_save`
  (keys in insertion order, plus the stored position under each key) and `@to_skip`.
  Its methods hold the source's loops, each proved against the functions above.
- `SaveOrder` (`saveorder.dfy`): the order of `to_save`, which on the sorted list is
  creation order.
- `Volumes` (`volumes.dfy`): the grouping loop of `Base#volumes`, over a given list of
  records.
- `Scenarios` (`scenarios.dfy`):
  - the test `test_safety_mechanism`, exactly;
  - a scaled-down version of the daily-series test.

A snapshot is named by its position in the sorted list. The source compares
snapshots by object identity (`Array#-`, `include?`). No object occurs twice in
one volume's list, because `Base#volumes` builds a fresh `Snapshot` for every
record (lib/ebs_prune_snapshot.rb:18), so two positions are distinct exactly when
the objects are. With a repeated object, `include?` and `Array#-` would treat its
two occurrences as one.

Four points of the code's behaviour a reader may not expect:

- **One key space.** All three tiers share the one hash `@to_save`. A daily key and the
  Sunday key of a weekly or monthly window can coincide, and then the two tiers
  interact.
- **`to_save` is in the hash's insertion order.** For the sorted list that order is
  creation order (`SaveOrder.SaveAscending`): a weekly or monthly key keeps the
  snapshot that first wrote it, and a daily key can be overwritten only while it is
  the last key that entered the hash. The `to_save.sort!` and `to_delete.sort!` calls
  at the end of `analyze_snapshots` act on copies built on the spot. `to_skip` is an
  `attr_reader`, so `to_skip.sort!` sorts `@to_skip` in place; it changes nothing,
  because `@to_skip` is already in sorted order (`Outcomes.SkipTheorem`).
- **`to_delete` keeps sorted order.** `Array#-` keeps the order of its left operand,
  and that operand is the sorted input.
- **The safety floor applies to a pending snapshot too.** When no bucket is filled,
  `to_save` is the last snapshot even if it is pending, and it is then in `to_skip` as
  well.

## Model

| member | source | states |
|---|---|---|
| Snapshots.Snapshot.Completed | lib/ebs_prune_snapshot.rb:219-221 | `completed?`: the status is exactly `completed`; only such a snapshot is offered to a tier (`Analysis.ClaimOf`) |
| Snapshots.NotCompleted | lib/ebs_prune_snapshot.rb:117-130 | the snapshots that are not completed, each occurrence kept, in their order, and no others |
| Snapshots.Compare | lib/ebs_prune_snapshot.rb:223-225 | `<=>` is -1, 0 or 1, and negative or positive exactly when the creation times are in that order |
| Snapshots.CompareIsTotalPreorder | lib/ebs_prune_snapshot.rb:223-225 | `<=>` is antisymmetric in sign and transitive, so sorting by it is well defined |
| Snapshots.NewRotation | lib/ebs_prune_snapshot.rb:237-241 | each given option is kept, and each absent option takes its own default: 7 daily, 12 weekly, 14 monthly |
| Snapshots.Insert | lib/ebs_prune_snapshot.rb:87 | inserting into a sorted list gives a sorted list with the same elements plus the new one |
| Snapshots.SortByCreation | lib/ebs_prune_snapshot.rb:87 | `snapshots.sort` is sorted by creation time and a permutation of the input |
| Snapshots.SortSortedIsIdentity | lib/ebs_prune_snapshot.rb:87 | sorting an already sorted list changes nothing |
| Snapshots.LastOfSorted | lib/ebs_prune_snapshot.rb:95-97 | the last element of a sorted permutation is an input element no older than any other |
| Snapshots.LastIsNewest | lib/ebs_prune_snapshot.rb:95-97 | `snapshots[-1]` after the sort is a newest snapshot of the input |
| Calendar.DayKey | lib/ebs_prune_snapshot.rb:202-204 | `day_key`: the UTC day number, equal for two instants exactly when their "%Y%m%d" strings are; its order is `Calendar.DayKeyMonotone` |
| Calendar.InDays | lib/ebs_prune_snapshot.rb:186-188 | `in_days(n)`: `n` whole days before `now`; its day number is `Calendar.DayShift` |
| Calendar.InWeeks | lib/ebs_prune_snapshot.rb:182-184 | `in_weeks(n)`: `7n` days before `now`; its weekday and week are `Calendar.WeekShift` |
| Calendar.InMonths | lib/ebs_prune_snapshot.rb:178-180 | `in_months(n)`: `4n` weeks before `now`, as the source counts a month |
| Calendar.WeekKey | lib/ebs_prune_snapshot.rb:190-200 | the day number of the Sunday starting the week of an instant; `Calendar.SundayOfWeek` shows it is that Sunday |
| Calendar.StartOfDay | lib/ebs_prune_snapshot.rb:190-194 | `Time.utc(y, m, d, 0, 0, 0)` is a midnight (a multiple of 86400 seconds), at or before the instant, on the same day |
| Calendar.Wday | lib/ebs_prune_snapshot.rb:191 | `wday` lies in 0..6 |
| Calendar.BeginningOfWeek | lib/ebs_prune_snapshot.rb:190-194 | `beginning_of_week` is a Sunday midnight, at most one week before the date and not after it |
| Calendar.EndOfWeek | lib/ebs_prune_snapshot.rb:196-200 | `end_of_week` is the last second of the same week, a Saturday, not before the date |
| Calendar.SundayOfWeek | lib/ebs_prune_snapshot.rb:190-200 | stepping back `wday` days reaches the Sunday of the week; stepping forward `6 - wday` days reaches its Saturday |
| Calendar.DayShift | lib/ebs_prune_snapshot.rb:186-188 | `in_days(n)` lies exactly `n` UTC days before `now` |
| Calendar.DayKeyMonotone | lib/ebs_prune_snapshot.rb:202-204 | a later instant never has an earlier `day_key` |
| Calendar.WeekShift | lib/ebs_prune_snapshot.rb:178-184 | `in_weeks(n)` keeps the weekday and moves the week's Sunday back by `n` weeks |
| Calendar.InWeekWindow | lib/ebs_prune_snapshot.rb:190-200 | an instant is inside `[beginning_of_week(d), end_of_week(d)]` exactly when it is in the same Sunday-to-Saturday week as `d` |
| Analysis.InBucket | lib/ebs_prune_snapshot.rb:135-176 | the window test of each tier: the same day as `in_days(i)`, or inside the week window of `in_weeks(i)` or `in_months(i)`; its closed form is `Windows.InBucketExactly` |
| Analysis.BucketKey | lib/ebs_prune_snapshot.rb:135-176 | the key a bucket is stored under: the bucket's day for the daily tier, the Sunday of the window otherwise; `Windows.BucketKeyOfMember` ties it to the snapshot |
| Analysis.Bucket | lib/ebs_prune_snapshot.rb:135-176 | the search of one tier over `(0..count - 1)`; `Windows.BucketClosedForm` gives what it finds |
| Analysis.FirstClaim | lib/ebs_prune_snapshot.rb:123 | `prune_daily || prune_weekly || prune_monthly`: the first tier whose search finds a bucket claims the instant; `Windows.ClaimClosedForm` gives it in closed form |
| Analysis.ClaimOf | lib/ebs_prune_snapshot.rb:122-127 | a snapshot that is not completed meets no claim; a completed one meets `FirstClaim` of its creation time |
| Analysis.SaveNewest | lib/ebs_prune_snapshot.rb:109-111 | `@to_save[key] = pos`: a new key is appended to the key list, a present key keeps its place; `Retention.SavesKeepKeysListedOnce` and `Retention.DailyWinner` state its effect |
| Analysis.SaveOldest | lib/ebs_prune_snapshot.rb:113-115 | `@to_save[key] ||= pos`: a present key is left alone; `Retention.TakenKeyWinner` and `Retention.FreeKeyWinner` state its effect |
| Analysis.Skip | lib/ebs_prune_snapshot.rb:117-119 | push unless present; `Retention.SkipStep` states its effect |
| Analysis.Offer | lib/ebs_prune_snapshot.rb:122-127 | one iteration of `analyze_snapshots`; `Retention.OfferSkip`, `Retention.OfferClaimed` and `Retention.OfferUnclaimed` state it case by case |
| Analysis.OfferThroughTiers | lib/ebs_prune_snapshot.rb:122-124 | for a completed snapshot, one iteration is the first tier whose search finds a bucket writing it, with `=` for the daily tier and `||=` for the others |
| Analysis.Run | lib/ebs_prune_snapshot.rb:121-128 | the loop after `k` snapshots; `Retention.RunSaved` and `Retention.RunSkip` state what it reaches |
| Analysis.SavePositions | lib/ebs_prune_snapshot.rb:95-97 | `to_save` as positions, each in range; `Outcomes.SaveTheorem` and `SaveOrder.SaveAscending` state what it holds and in which order |
| Analysis.DeletePositions | lib/ebs_prune_snapshot.rb:99-101 | `to_delete` as positions; `Outcomes.DeleteTheorem` states what it holds |
| Analysis.FirstBucket | lib/ebs_prune_snapshot.rb:136-145 | the `catch :found` search returns the first bucket index in range holding the instant, or none when no index in range holds it |
| Analysis.Minus | lib/ebs_prune_snapshot.rb:100 | `Array#-` keeps exactly the left elements not in the right list |
| Windows.InBucketExactly | lib/ebs_prune_snapshot.rb:135-176 | bucket `i` of a tier holds an instant exactly when `i` is that tier's one target index, so one tier's windows never overlap |
| Windows.BucketClosedForm | lib/ebs_prune_snapshot.rb:135-176 | each tier's search finds the target bucket when it is in range and nothing otherwise |
| Windows.BucketKeyOfMember | lib/ebs_prune_snapshot.rb:135-176 | a daily bucket's key is the snapshot's own day; a weekly or monthly bucket's key is the Sunday of the snapshot's week |
| Windows.ClaimClosedForm | lib/ebs_prune_snapshot.rb:121-176 | tier precedence in closed form: daily when under `daily` days back; else weekly when under `weekly` weeks back; else monthly on a multiple of four weeks under `4*monthly` weeks; else no claim |
| Windows.ClaimKeyIsOwnDayOrWeek | lib/ebs_prune_snapshot.rb:109-115 | a claim is stored under the snapshot's own day or its own week's Sunday |
| Windows.SameDaySameClaim | lib/ebs_prune_snapshot.rb:135-176 | two instants of one UTC day meet the same claim: tier, bucket and key |
| Windows.DailyKeyBetween | lib/ebs_prune_snapshot.rb:135-176 | when an instant claims a key and a later one claims the same key daily, every instant between them meets that same daily claim |
| Retention.RunSkip | lib/ebs_prune_snapshot.rb:117-128 | after `k` steps, `@to_skip` holds exactly the positions below `k` that are not completed, each once, in ascending order |
| Retention.SkipStep | lib/ebs_prune_snapshot.rb:118 | pushing unless already present keeps the list exact, duplicate-free and ascending |
| Retention.OfferSkip | lib/ebs_prune_snapshot.rb:123-127 | one iteration pushes a snapshot onto `@to_skip` exactly when it is not completed and not yet there |
| Retention.RunSaved | lib/ebs_prune_snapshot.rb:109-128 | after `k` steps, a key is in `@to_save` exactly when some earlier snapshot claims it; it holds the last daily claimant if there is one, else the first claimant; each key is listed once |
| Retention.SavedStep | lib/ebs_prune_snapshot.rb:122-128 | one iteration keeps that invariant |
| Retention.OfferUnclaimed | lib/ebs_prune_snapshot.rb:123-127 | a snapshot no tier claims leaves `@to_save` alone, and is skipped when not completed |
| Retention.OfferClaimed | lib/ebs_prune_snapshot.rb:109-128 | a claimed snapshot is written with `=` by the daily tier and with `\|\|=` by the others |
| Retention.RunClaimed | lib/ebs_prune_snapshot.rb:122-124 | the step for a claimed snapshot, from a known state |
| Retention.RunUnclaimed | lib/ebs_prune_snapshot.rb:122-127 | the step for an unclaimed snapshot, from a known state |
| Retention.SavesKeepKeysListedOnce | lib/ebs_prune_snapshot.rb:109-115 | both writes keep the hash's key list duplicate-free and equal to its keys |
| Retention.UnclaimedStep | lib/ebs_prune_snapshot.rb:123-127 | an unclaimed snapshot keeps the invariant |
| Retention.UnclaimedKeys | lib/ebs_prune_snapshot.rb:123-127 | an unclaimed snapshot adds no key |
| Retention.ClaimedStep | lib/ebs_prune_snapshot.rb:109-128 | a claimed snapshot keeps the invariant |
| Retention.DailyWinner | lib/ebs_prune_snapshot.rb:110 | a daily claimant becomes its key's winner |
| Retention.TakenKeyWinner | lib/ebs_prune_snapshot.rb:114 | a weekly or monthly claimant of a key already held changes nothing, and the held snapshot stays the winner |
| Retention.FreeKeyWinner | lib/ebs_prune_snapshot.rb:114 | a weekly or monthly claimant of an absent key becomes its winner |
| Retention.OtherKeysKept | lib/ebs_prune_snapshot.rb:109-115 | a write leaves every other key and its winner alone |
| Retention.ClaimedKeysSaved | lib/ebs_prune_snapshot.rb:109-115 | after a claim, the claimed key is present and the keys are still exactly the claimed ones |
| Retention.SameDailyClaims | lib/ebs_prune_snapshot.rb:110 | a step whose snapshot is not a daily claimant of a key leaves unchanged whether that key has a daily claimant |
| Retention.NoNewClaim | lib/ebs_prune_snapshot.rb:109-128 | a step whose snapshot does not claim a key keeps that key's snapshot, which stays its winner |
| Outcomes.RunWellFormed | lib/ebs_prune_snapshot.rb:109-119 | every state is consistent: positions in range, keys listed once, skip positions in range |
| Outcomes.SkipTheorem | lib/ebs_prune_snapshot.rb:117-130 | `to_skip` is exactly the non-completed snapshots, each once, in sorted order, so `to_skip.sort!` changes nothing |
| Outcomes.PendingPositions | lib/ebs_prune_snapshot.rb:117-130 | the positions whose snapshot is not completed, exactly, ascending |
| Outcomes.SelectPending | lib/ebs_prune_snapshot.rb:117-130 | picking those positions from the sorted list gives the snapshots that are not completed, in order |
| Outcomes.SkipValues | lib/ebs_prune_snapshot.rb:117-130 | `to_skip` as snapshots is exactly the snapshots that are not completed, each once, in sorted order |
| Outcomes.SaveTheorem | lib/ebs_prune_snapshot.rb:95-97 | `to_save` is never empty; it is the last snapshot when the hash is empty, and otherwise exactly the stored snapshots, each once; its order is stated by `SaveOrder.SaveAscending` |
| Outcomes.SavedInjective | lib/ebs_prune_snapshot.rb:109-115 | no snapshot is stored under two keys |
| Outcomes.SavePositionsOfValues | lib/ebs_prune_snapshot.rb:96 | `@to_save.values` lists exactly the stored snapshots, each once |
| Outcomes.MinusAscending | lib/ebs_prune_snapshot.rb:99-101 | `Array#-` keeps the order of the sorted list, so `to_delete.sort!` changes nothing |
| Outcomes.DeleteTheorem | lib/ebs_prune_snapshot.rb:99-101 | `to_delete` is exactly the snapshots in neither `to_save` nor `to_skip`, in sorted order; every snapshot is in one of the three lists |
| Outcomes.SafetyFloor | lib/ebs_prune_snapshot.rb:95-97 | the hash stays empty exactly when no completed snapshot is claimed; then `to_save` is the newest snapshot, which is in `to_skip` too when it is pending |
| Outcomes.CompletedFate | lib/ebs_prune_snapshot.rb:122-128 | a completed snapshot is never skipped; it is saved exactly when its key holds it, and deleted when it is unclaimed or has lost its key (it is never offered to a later tier) |
| Outcomes.DailyKeepsNewest | lib/ebs_prune_snapshot.rb:135-146 | of two daily claimants of one day, the earlier is deleted; the key holds the later one or a still later daily claimant |
| Outcomes.OldestKept | lib/ebs_prune_snapshot.rb:149-176 | a later weekly or monthly claimant of a key whose claimants include no daily one is deleted; the key keeps an earlier claimant |
| Outcomes.TierKeysSize | lib/ebs_prune_snapshot.rb:135-176 | a tier with count `n` has at most `max(n, 0)` keys |
| Outcomes.ClaimInTierKeys | lib/ebs_prune_snapshot.rb:135-176 | a claim's key is one of its tier's bucket keys |
| Outcomes.SavedKeysInBuckets | lib/ebs_prune_snapshot.rb:109-115 | every key of `@to_save` is a bucket key of the rotation |
| Outcomes.SaveBound | lib/ebs_prune_snapshot.rb:95-97 | `to_save` has at most `max(d,0)+max(w,0)+max(m,0)` snapshots, and one when that sum is 0 |
| SaveOrder.DailyKeyIsLast | lib/ebs_prune_snapshot.rb:109-111 | a daily claimant of a key already in `@to_save` finds that key last in insertion order, so `=` never moves a later position before an earlier key |
| SaveOrder.UnclaimedOrdered | lib/ebs_prune_snapshot.rb:122-127 | a snapshot in no bucket keeps the positions ascending along the keys and the keys in first-claim order |
| SaveOrder.HeldKeyOrdered | lib/ebs_prune_snapshot.rb:113-115 | `||=` on a held key keeps both orders |
| SaveOrder.FreeKeyOrdered | lib/ebs_prune_snapshot.rb:109-115 | a key claimed for the first time enters last with the newest position, keeping both orders |
| SaveOrder.DailyOverwriteOrdered | lib/ebs_prune_snapshot.rb:109-111 | `=` on a held daily key keeps both orders |
| SaveOrder.OrderedStep | lib/ebs_prune_snapshot.rb:121-128 | one iteration of `analyze_snapshots` on the sorted list keeps both orders |
| SaveOrder.RunOrdered | lib/ebs_prune_snapshot.rb:121-128 | after any number of steps on the sorted list, the stored positions ascend along the keys in insertion order |
| SaveOrder.SaveAscending | lib/ebs_prune_snapshot.rb:95-97 | for the sorted list, `to_save` is in ascending position and creation order, so `to_save.sort!` would leave it as it is |
| Analyzer.SnapshotAnalyzer.constructor | lib/ebs_prune_snapshot.rb:86-93 | `initialize` sorts the input and leaves the state `analyze_snapshots` defines |
| Analyzer.SnapshotAnalyzer.ToSkip | lib/ebs_prune_snapshot.rb:117-130 | `to_skip` is exactly the snapshots that are not completed, each once, in creation order |
| Analyzer.SnapshotAnalyzer.ToSave | lib/ebs_prune_snapshot.rb:95-97 | `to_save` is non-empty, drawn from the snapshots, in creation order, and the newest snapshot alone when `@to_save` is empty |
| Analyzer.SnapshotAnalyzer.ToDelete | lib/ebs_prune_snapshot.rb:99-101 | `to_delete` holds only completed snapshots of the input |
| Analyzer.SnapshotAnalyzer.SaveNewestSnapshot | lib/ebs_prune_snapshot.rb:109-111 | `@to_save[day_key(day)] = snapshot`: the key is appended when new, and its value replaced |
| Analyzer.SnapshotAnalyzer.SaveOldestSnapshot | lib/ebs_prune_snapshot.rb:113-115 | `@to_save[day_key(day)] \|\|= snapshot`: only an absent key is written |
| Analyzer.SnapshotAnalyzer.SkipSnapshot | lib/ebs_prune_snapshot.rb:117-119 | push unless already present |
| Analyzer.SnapshotAnalyzer.PruneDaily | lib/ebs_prune_snapshot.rb:135-146 | returns whether a daily bucket holds the snapshot, and in that case writes it with `=` under the first such bucket's day |
| Analyzer.SnapshotAnalyzer.PruneWeekly | lib/ebs_prune_snapshot.rb:149-161 | returns whether a weekly window holds the snapshot, and in that case writes it with `\|\|=` under the first such window's Sunday |
| Analyzer.SnapshotAnalyzer.PruneMonthly | lib/ebs_prune_snapshot.rb:164-176 | the same for the windows every four weeks |
| Analyzer.SnapshotAnalyzer.AnalyzeSnapshots | lib/ebs_prune_snapshot.rb:121-132 | the loop reaches the state `Run` defines on the whole sorted list |
| Volumes.OfVolume | lib/ebs_prune_snapshot.rb:14-24 | a volume's group holds exactly that volume's records, never more than the input |
| Volumes.OfVolumeAppend | lib/ebs_prune_snapshot.rb:19-20 | a new record extends only its own volume's group, at the end |
| Volumes.NoRecordsOfVolume | lib/ebs_prune_snapshot.rb:14-24 | a volume without records has an empty group |
| Volumes.OfVolumeCounts | lib/ebs_prune_snapshot.rb:14-24 | each record is in its own volume's group as often as in the input, and in no other group |
| Volumes.PushedByUpdate | lib/ebs_prune_snapshot.rb:19-20 | `volumes[id] \|\|= []; volumes[id].push(s)` extends that one entry and keeps the others |
| Volumes.GroupedStep | lib/ebs_prune_snapshot.rb:17-21 | one iteration keeps the hash equal to the grouping of the records seen |
| Volumes.KeysListedStep | lib/ebs_prune_snapshot.rb:19 | a key joins the key list exactly when it joins the hash |
| Volumes.GroupsNonEmpty | lib/ebs_prune_snapshot.rb:14-24 | after grouping, the hash has an entry exactly for the volumes that occur, and no entry is empty |
| Volumes.GroupByVolume | lib/ebs_prune_snapshot.rb:14-24 | `volumes` has one non-empty entry per volume that occurs, holding that volume's records in input order, and its keys once each |
| Scenarios.AncientUnclaimed | test/test_ebs_prune_snapshot.rb:60-61 | snapshots 60 and 90 weeks before 2012-05-01 fall in no bucket of the 7/12/14 rotation |
| Scenarios.AncientSorted | test/test_ebs_prune_snapshot.rb:60-61 | the sort puts the 90-week snapshot first |
| Scenarios.AncientRun | test/test_ebs_prune_snapshot.rb:135-142 | the run ends with nothing saved and nothing skipped |
| Scenarios.NothingSavedOfTwo | lib/ebs_prune_snapshot.rb:95-101 | with nothing saved from two snapshots, `to_save` is the second and `to_delete` the first |
| Scenarios.SafetyMechanism | test/test_ebs_prune_snapshot.rb:135-142 | `to_save` is exactly "333333", `to_skip` is empty, `to_delete` is exactly "444444" |
| Scenarios.NowIsTuesdayMidnight | test/test_ebs_prune_snapshot.rb:19-21 | 2012-05-01T00:00Z is a Tuesday midnight |
| Scenarios.DaysBackCalendar | lib/ebs_prune_snapshot.rb:186-191 | the day and weekday of an instant counted back in days from a Tuesday midnight |
| Scenarios.DaysBackWeeks | lib/ebs_prune_snapshot.rb:190-200 | the whole weeks back of such an instant |
| Scenarios.ClaimDaysBack | lib/ebs_prune_snapshot.rb:135-176 | the claim on such an instant, with the week arithmetic done |
| Scenarios.SeriesSorted | lib/ebs_prune_snapshot.rb:87 | the series is already in sorted order |
| Scenarios.MonthlyClaim | lib/ebs_prune_snapshot.rb:164-176 | 30 days back (a Sunday four weeks back) is monthly bucket 1 |
| Scenarios.WeeklyClaims | lib/ebs_prune_snapshot.rb:149-176 | 10 days back is in no bucket; 9 and 6 days back share weekly bucket 1 |
| Scenarios.YesterdayClaims | lib/ebs_prune_snapshot.rb:135-146 | yesterday's completed snapshots are daily bucket 1 |
| Scenarios.TodayClaim | lib/ebs_prune_snapshot.rb:135-146 | today's snapshot is daily bucket 0 |
| Scenarios.ClaimsOfSeries | lib/ebs_prune_snapshot.rb:122-128 | the claim of every snapshot of the series |
| Scenarios.SeriesOlder | lib/ebs_prune_snapshot.rb:121-128 | after four steps the monthly claimant and the older weekly claimant hold their keys |
| Scenarios.SeriesYesterday | lib/ebs_prune_snapshot.rb:109-128 | after six steps yesterday's first claimant holds its day and the pending snapshot is skipped |
| Scenarios.SeriesSeventh | lib/ebs_prune_snapshot.rb:109-111 | the later claimant of yesterday replaces the earlier one |
| Scenarios.SeriesOutcome | lib/ebs_prune_snapshot.rb:121-128 | the final hash holds positions 0, 2, 6, 7 under four keys; `to_skip` is [5] |
| Scenarios.SeriesWellFormed | lib/ebs_prune_snapshot.rb:109-119 | that state is consistent |
| Scenarios.SeriesSave | lib/ebs_prune_snapshot.rb:95-97 | its `to_save` positions are 0, 2, 6, 7, in insertion order |
| Scenarios.SeriesDelete | lib/ebs_prune_snapshot.rb:99-101 | its `to_delete` positions are 1, 3, 4 |
| Scenarios.SeriesPositions | lib/ebs_prune_snapshot.rb:95-101 | the three lists of the series, as positions |
| Scenarios.SeriesLists | lib/ebs_prune_snapshot.rb:95-101 | the same lists, as snapshots |
| Scenarios.ScaledDownSeries | test/test_ebs_prune_snapshot.rb:144-151 | through the analyzer, the 8-snapshot series gives save [s0,s2,s6,s7] in insertion order, skip [s5] (pending), and delete [s1,s3,s4] |

## Left out

- The `Aws` class (lib/ebs_prune_snapshot.rb:55-80): EC2 calls and credential lookup in the environment. `Volumes.GroupByVolume` takes the records as a parameter instead.
- `Base#initialize`, `describe`, `describe_volume`, `prune` and `prune_volume` (lib/ebs_prune_snapshot.rb:9-12,30-50): console output and delete calls.
- `Base#volume` (lib/ebs_prune_snapshot.rb:26-28): a plain hash lookup.
- The `@volumes ||=` memoisation, and the `@now ||=` memoisation with `Time.now`: `now` is a parameter fixed for the whole analysis.
- `Snapshot#initialize` (lib/ebs_prune_snapshot.rb:212-217): parsing the xmlschema start time. Instants are integer seconds, so fractional seconds are not modelled; in the source, an instant in the last fraction of a Saturday second falls in no weekly or monthly window, although its day's daily bucket can still hold it.
- `Snapshot#date`, `Rotation#to_s` and `strftime`. `day_key` is modelled by the UTC day number, which is equal for two instants exactly when the "%Y%m%d" strings are.
- The `.to_i` coercion of string rotation options: options are integers or absent.
- The crash of `Rotation.new(nil)` when `Base` is built without a `:rotation` option: the options are always a present record.
- The order of snapshots with equal creation times: Ruby's sort leaves it unspecified; the model's sort is stable.
- The empty snapshot list: `Base` only builds non-empty groups, and the constructor requires a non-empty input.
- The full 400-day fixture of `test_volume_analyzer` and `test_actual_expected_dates`: it is replaced by `Scenarios.ScaledDownSeries`, an 8-snapshot series with rotation 2/2/2 that exercises every tier, a lost daily bucket, a lost weekly bucket, an unclaimed snapshot and a pending one.
- Analyzer.SnapshotAnalyzer.ToSave: its contract states only that the list is non-empty, drawn from the input, in creation order, and the newest snapshot alone when the hash is empty. The full statement is `Outcomes.SaveTheorem`, on positions, because two equal snapshot records at different positions cannot be told apart as values.
- Analyzer.SnapshotAnalyzer.ToDelete: its contract states only that the list holds completed input snapshots. The full statement is `Outcomes.DeleteTheorem`, on positions, for the same reason.
