/** The retention decision of `SnapshotAnalyzer`, as functions of the sorted
    snapshots, the rotation and the instant `now`.

    A snapshot is named by its POSITION in the sorted list: the source compares
    snapshots by object identity (`Array#-`, `include?`), and positions are
    distinct exactly when the objects are. The hash `@to_save` is kept as its
    keys in insertion order plus a map from key to position. */
module Analysis {
  import opened Wrappers
  import opened Calendar
  import opened Snapshots

  datatype Tier = Daily | Weekly | Monthly

  /** The number of buckets a rotation gives a tier. */
  function Count(rotation: Rotation, tier: Tier): int
  {
    match tier
    case Daily => rotation.daily
    case Weekly => rotation.weekly
    case Monthly => rotation.monthly
  }

  /** The test inside `prune_daily`, `prune_weekly` and `prune_monthly`: does
      bucket `i` of the tier hold the instant `t`? */
  predicate InBucket(tier: Tier, now: int, t: int, i: int)
  {
    match tier
    case Daily => DayKey(t) == DayKey(InDays(now, i))
    case Weekly => BeginningOfWeek(InWeeks(now, i)) <= t <= EndOfWeek(InWeeks(now, i))
    case Monthly => BeginningOfWeek(InMonths(now, i)) <= t <= EndOfWeek(InMonths(now, i))
  }

  /** The `@to_save` key a bucket is stored under: the bucket's day for the
      daily tier, the Sunday starting the window for the other two. */
  function BucketKey(tier: Tier, now: int, i: int): int
  {
    match tier
    case Daily => DayKey(InDays(now, i))
    case Weekly => DayKey(BeginningOfWeek(InWeeks(now, i)))
    case Monthly => DayKey(BeginningOfWeek(InMonths(now, i)))
  }

  /** The `catch :found` search: the first bucket index in `[from, count)`
      that holds `t`, or nothing. */
  function FirstBucket(tier: Tier, count: int, now: int, t: int, from: nat): (r: Option<nat>)
    ensures r.Some? ==> from <= r.value < count && InBucket(tier, now, t, r.value)
    ensures r.Some? ==> forall j :: from <= j < r.value ==> !InBucket(tier, now, t, j)
    ensures r.None? ==> forall j :: from <= j < count ==> !InBucket(tier, now, t, j)
    decreases count - from
  {
    if count <= from then None
    else if InBucket(tier, now, t, from) then Some(from)
    else FirstBucket(tier, count, now, t, from + 1)
  }

  /** The bucket of a tier that claims `t` (`(0..count - 1).each`). */
  function Bucket(rotation: Rotation, tier: Tier, now: int, t: int): Option<nat>
  {
    FirstBucket(tier, Count(rotation, tier), now, t, 0)
  }

  /** A tier's claim on a snapshot: the tier, the bucket index and its key. */
  datatype Claim = Claim(tier: Tier, bucket: nat, key: int)

  /** `prune_daily(s) || prune_weekly(s) || prune_monthly(s)`: the first tier
      with a bucket holding `t` claims it. */
  function FirstClaim(rotation: Rotation, now: int, t: int): Option<Claim>
  {
    match Bucket(rotation, Daily, now, t)
    case Some(i) => Some(Claim(Daily, i, BucketKey(Daily, now, i)))
    case None =>
      match Bucket(rotation, Weekly, now, t)
      case Some(i) => Some(Claim(Weekly, i, BucketKey(Weekly, now, i)))
      case None =>
        match Bucket(rotation, Monthly, now, t)
        case Some(i) => Some(Claim(Monthly, i, BucketKey(Monthly, now, i)))
        case None => None
  }

  /** The claim a snapshot meets in `analyze_snapshots`: none for a snapshot
      that is not completed, which is never offered to a tier. */
  function ClaimOf(s: Snapshot, rotation: Rotation, now: int): Option<Claim>
  {
    if s.Completed() then FirstClaim(rotation, now, s.createdAt) else None
  }

  /** The analyzer's state: `@to_save` (its keys in insertion order and the
      position stored under each key) and `@to_skip`. */
  datatype Tally = Tally(order: seq<int>, saved: map<int, nat>, skip: seq<nat>)

  const Empty: Tally := Tally([], map[], [])

  /** `@to_save[key] = snapshot`: a key already present keeps its place. */
  function SaveNewest(tally: Tally, key: int, pos: nat): Tally
  {
    tally.(order := if key in tally.saved then tally.order else tally.order + [key],
           saved := tally.saved[key := pos])
  }

  /** `@to_save[key] ||= snapshot`: an occupied key is never replaced. */
  function SaveOldest(tally: Tally, key: int, pos: nat): Tally
  {
    if key in tally.saved then tally else SaveNewest(tally, key, pos)
  }

  /** `skip_snapshot`: push unless already present. */
  function Skip(tally: Tally, pos: nat): Tally
  {
    if pos in tally.skip then tally else tally.(skip := tally.skip + [pos])
  }

  /** One iteration of `analyze_snapshots` on the snapshot at `pos`. */
  function Offer(tally: Tally, pos: nat, s: Snapshot, rotation: Rotation, now: int): Tally
  {
    if s.Completed() then
      match FirstClaim(rotation, now, s.createdAt)
      case None => tally
      case Some(c) =>
        if c.tier == Daily then SaveNewest(tally, c.key, pos) else SaveOldest(tally, c.key, pos)
    else
      Skip(tally, pos)
  }

  /** A completed snapshot goes through `prune_daily`, then `prune_weekly`,
      then `prune_monthly`, and the first tier whose search finds a bucket
      writes it: `=` for the daily tier, `||=` for the other two. */
  lemma OfferThroughTiers(tally: Tally, pos: nat, s: Snapshot, rotation: Rotation, now: int)
    requires s.Completed()
    ensures var daily := Bucket(rotation, Daily, now, s.createdAt);
      var weekly := Bucket(rotation, Weekly, now, s.createdAt);
      var monthly := Bucket(rotation, Monthly, now, s.createdAt);
      Offer(tally, pos, s, rotation, now)
        == if daily.Some? then SaveNewest(tally, BucketKey(Daily, now, daily.value), pos)
           else if weekly.Some? then SaveOldest(tally, BucketKey(Weekly, now, weekly.value), pos)
           else if monthly.Some? then SaveOldest(tally, BucketKey(Monthly, now, monthly.value), pos)
           else tally
  {
  }

  /** `analyze_snapshots` after the first `k` snapshots of the sorted list. */
  function Run(sorted: seq<Snapshot>, rotation: Rotation, now: int, k: nat): Tally
    requires k <= |sorted|
  {
    if k == 0 then Empty
    else Offer(Run(sorted, rotation, now, k - 1), k - 1, sorted[k - 1], rotation, now)
  }

  /** The state consistent with `n` snapshots: positions are in range, each
      key of `@to_save` is listed once, and `@to_skip` holds no position twice. */
  ghost predicate WellFormed(tally: Tally, n: nat)
  {
    && (forall key :: key in tally.saved ==> tally.saved[key] < n)
    && (forall key :: key in tally.order <==> key in tally.saved)
    && (forall a, b :: 0 <= a < b < |tally.order| ==> tally.order[a] != tally.order[b])
    && (forall a :: 0 <= a < |tally.skip| ==> tally.skip[a] < n)
  }

  /** Some key of `@to_save` holds the snapshot at `pos`. */
  ghost predicate Stored(tally: Tally, pos: nat)
  {
    exists key :: key in tally.saved && tally.saved[key] == pos
  }

  /** `to_save`: the values of `@to_save` in insertion order, or the last
      (newest) snapshot when the hash is empty. */
  function SavePositions(tally: Tally, n: nat): (r: seq<nat>)
    requires n > 0 && WellFormed(tally, n)
    ensures forall a :: 0 <= a < |r| ==> r[a] < n
  {
    if |tally.saved| == 0 then [n - 1]
    else
      assert forall key :: key in tally.order <==> key in tally.saved;
      assert forall a :: 0 <= a < |tally.order| ==> tally.order[a] in tally.order;
      assert forall a :: 0 <= a < |tally.order| ==> tally.saved[tally.order[a]] < n;
      seq(|tally.order|, a requires 0 <= a < |tally.order| => tally.saved[tally.order[a]])
  }

  /** `0, 1, .., n - 1`: the sorted list, position by position. */
  function Positions(n: nat): (r: seq<nat>)
    ensures |r| == n && forall a :: 0 <= a < n ==> r[a] == a
  {
    seq(n, a => a)
  }

  /** `Array#-`: the elements of `xs` that are not in `ys`, in their order. */
  function Minus(xs: seq<nat>, ys: seq<nat>): (r: seq<nat>)
    ensures forall x :: x in r <==> x in xs && x !in ys
    ensures |r| <= |xs|
  {
    if xs == [] then []
    else (if xs[0] in ys then [] else [xs[0]]) + Minus(xs[1..], ys)
  }

  /** `to_delete`: `snapshots - to_save - to_skip`. */
  function DeletePositions(tally: Tally, n: nat): seq<nat>
    requires n > 0 && WellFormed(tally, n)
  {
    Minus(Minus(Positions(n), SavePositions(tally, n)), tally.skip)
  }

  /** The snapshots at the given positions. */
  function Select(sorted: seq<Snapshot>, positions: seq<nat>): (r: seq<Snapshot>)
    requires forall a :: 0 <= a < |positions| ==> positions[a] < |sorted|
    ensures |r| == |positions|
    ensures forall a :: 0 <= a < |r| ==> r[a] == sorted[positions[a]]
  {
    seq(|positions|, a requires 0 <= a < |positions| => sorted[positions[a]])
  }
}
