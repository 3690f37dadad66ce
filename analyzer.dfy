/** `SnapshotAnalyzer`: sorts one volume's snapshots, then walks them once,
    skipping those that are not completed and offering the others to the
    daily, weekly and monthly buckets in turn. */
module Analyzer {
  import opened Calendar
  import opened Snapshots
  import opened Analysis
  import Outcomes
  import SaveOrder

  class SnapshotAnalyzer {
    /** `@snapshots`: the input, sorted by creation time. */
    const snapshots: seq<Snapshot>
    const rotation: Rotation
    /** `now`, fixed for the whole analysis. */
    const now: int
    /** `@to_save`: its keys in insertion order, and the position of the
        snapshot stored under each key. */
    var order: seq<int>
    var saved: map<int, nat>
    /** `@to_skip`, as positions in `snapshots`. */
    var toSkip: seq<nat>

    function State(): Tally
      reads this
    {
      Tally(order, saved, toSkip)
    }

    /** After construction the snapshots are sorted and the state is the one
        the analysis defines. */
    ghost predicate Valid()
      reads this
    {
      |snapshots| > 0 && SortedByCreation(snapshots) && State() == Run(snapshots, rotation, now, |snapshots|)
    }

    /** `initialize`: sort, then `analyze_snapshots`. */
    constructor (input: seq<Snapshot>, rotation: Rotation, now: int)
      requires |input| > 0
      ensures snapshots == SortByCreation(input)
      ensures this.rotation == rotation && this.now == now
      ensures Valid()
    {
      snapshots := SortByCreation(input);
      this.rotation := rotation;
      this.now := now;
      order, saved, toSkip := [], map[], [];
      new;
      AnalyzeSnapshots();
    }

    /** `to_skip`: the snapshots that are not completed, each once, in
        creation order. */
    function ToSkip(): (r: seq<Snapshot>)
      reads this
      requires Valid()
      ensures forall x :: x in r <==> x in snapshots && !x.Completed()
      ensures r == NotCompleted(snapshots)
      ensures SortedByCreation(r)
    {
      Outcomes.SkipTheorem(snapshots, rotation, now);
      Outcomes.SkipValues(snapshots, rotation, now);
      Select(snapshots, toSkip)
    }

    /** `to_save`: the values of `@to_save`, or the newest snapshot when it
        is empty; never empty, and in creation order. */
    function ToSave(): (r: seq<Snapshot>)
      reads this
      requires Valid()
      ensures 1 <= |r| && forall x :: x in r ==> x in snapshots
      ensures |saved| == 0 ==> r == [snapshots[|snapshots| - 1]]
      ensures SortedByCreation(r)
    {
      Outcomes.SaveTheorem(snapshots, rotation, now);
      SaveOrder.SaveAscending(snapshots, rotation, now);
      Select(snapshots, SavePositions(State(), |snapshots|))
    }

    /** `to_delete`: `snapshots - to_save - to_skip`. */
    function ToDelete(): (r: seq<Snapshot>)
      reads this
      requires Valid()
      ensures forall x :: x in r ==> x in snapshots && x.Completed()
    {
      Outcomes.DeleteTheorem(snapshots, rotation, now);
      Outcomes.SkipTheorem(snapshots, rotation, now);
      var delete := DeletePositions(State(), |snapshots|);
      assert forall a :: 0 <= a < |delete| ==> delete[a] in delete;
      Select(snapshots, delete)
    }

    /** `save_newest_snapshot`: `@to_save[day_key(day)] = snapshot`. Protected
        in the source: only the constructor's analysis calls it, and a call
        from outside would break `Valid()`. */
    method SaveNewestSnapshot(pos: nat, day: int)
      modifies this
      ensures State() == SaveNewest(old(State()), DayKey(day), pos)
    {
      var key := DayKey(day);
      if key !in saved {
        order := order + [key];
      }
      saved := saved[key := pos];
    }

    /** `save_oldest_snapshot`: `@to_save[day_key(day)] ||= snapshot`.
        Protected in the source, like `SaveNewestSnapshot`. */
    method SaveOldestSnapshot(pos: nat, day: int)
      modifies this
      ensures State() == SaveOldest(old(State()), DayKey(day), pos)
    {
      var key := DayKey(day);
      if key !in saved {
        order := order + [key];
        saved := saved[key := pos];
      }
    }

    /** `skip_snapshot`: push unless already there. Protected in the source,
        like `SaveNewestSnapshot`. */
    method SkipSnapshot(pos: nat)
      modifies this
      ensures State() == Skip(old(State()), pos)
    {
      if pos !in toSkip {
        toSkip := toSkip + [pos];
      }
    }

    /** `prune_daily`: store the snapshot under the first daily bucket whose
        day it was taken on. */
    method PruneDaily(pos: nat) returns (found: bool)
      requires pos < |snapshots|
      modifies this
      ensures var bucket := Bucket(rotation, Daily, now, snapshots[pos].createdAt);
        && found == bucket.Some?
        && State() == if found then SaveNewest(old(State()), BucketKey(Daily, now, bucket.value), pos)
                      else old(State())
    {
      var t := snapshots[pos].createdAt;
      var count := 0;
      while count < rotation.daily
        invariant 0 <= count
        invariant FirstBucket(Daily, rotation.daily, now, t, count) == Bucket(rotation, Daily, now, t)
        invariant State() == old(State())
      {
        var day := InDays(now, count);
        if DayKey(t) == DayKey(day) {
          SaveNewestSnapshot(pos, day);
          return true;
        }
        count := count + 1;
      }
      return false;
    }

    /** `prune_weekly`: store the snapshot under the first weekly window
        holding it, unless that key is taken. */
    method PruneWeekly(pos: nat) returns (found: bool)
      requires pos < |snapshots|
      modifies this
      ensures var bucket := Bucket(rotation, Weekly, now, snapshots[pos].createdAt);
        && found == bucket.Some?
        && State() == if found then SaveOldest(old(State()), BucketKey(Weekly, now, bucket.value), pos)
                      else old(State())
    {
      var t := snapshots[pos].createdAt;
      var count := 0;
      while count < rotation.weekly
        invariant 0 <= count
        invariant FirstBucket(Weekly, rotation.weekly, now, t, count) == Bucket(rotation, Weekly, now, t)
        invariant State() == old(State())
      {
        var weekBeg := BeginningOfWeek(InWeeks(now, count));
        var weekEnd := EndOfWeek(InWeeks(now, count));
        if t >= weekBeg && t <= weekEnd {
          SaveOldestSnapshot(pos, weekBeg);
          return true;
        }
        count := count + 1;
      }
      return false;
    }

    /** `prune_monthly`: as `prune_weekly`, with windows every four weeks. */
    method PruneMonthly(pos: nat) returns (found: bool)
      requires pos < |snapshots|
      modifies this
      ensures var bucket := Bucket(rotation, Monthly, now, snapshots[pos].createdAt);
        && found == bucket.Some?
        && State() == if found then SaveOldest(old(State()), BucketKey(Monthly, now, bucket.value), pos)
                      else old(State())
    {
      var t := snapshots[pos].createdAt;
      var count := 0;
      while count < rotation.monthly
        invariant 0 <= count
        invariant FirstBucket(Monthly, rotation.monthly, now, t, count) == Bucket(rotation, Monthly, now, t)
        invariant State() == old(State())
      {
        var monthBeg := BeginningOfWeek(InMonths(now, count));
        var monthEnd := EndOfWeek(InMonths(now, count));
        if t >= monthBeg && t <= monthEnd {
          SaveOldestSnapshot(pos, monthBeg);
          return true;
        }
        count := count + 1;
      }
      return false;
    }

    /** `analyze_snapshots`. The source ends it with `sort!` on `to_save`,
        `to_skip` and `to_delete`; the first and last sort arrays built on the
        spot and thrown away, and `@to_skip` is already in sorted order
        (`Outcomes.SkipTheorem`), so none of the three changes the state. */
    method AnalyzeSnapshots()
      requires State() == Empty
      modifies this
      ensures State() == Run(snapshots, rotation, now, |snapshots|)
    {
      var i := 0;
      while i < |snapshots|
        invariant 0 <= i <= |snapshots|
        invariant State() == Run(snapshots, rotation, now, i)
      {
        ghost var before := State();
        var snapshot := snapshots[i];
        if snapshot.Completed() {
          OfferThroughTiers(before, i, snapshot, rotation, now);
          var found := PruneDaily(i);
          if !found {
            found := PruneWeekly(i);
          }
          if !found {
            found := PruneMonthly(i);
          }
        } else {
          SkipSnapshot(i);
        }
        assert State() == Offer(before, i, snapshot, rotation, now);
        i := i + 1;
      }
    }
  }
}
