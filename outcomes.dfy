/** The three lists the analyzer hands out, `to_skip`, `to_save` and
    `to_delete`, and what they promise about every input snapshot. */
module Outcomes {
  import opened Wrappers
  import opened Snapshots
  import opened Analysis
  import opened Retention

  /** The state `analyze_snapshots` reaches on the whole sorted list. */
  function Final(sorted: seq<Snapshot>, rotation: Rotation, now: int): Tally
  {
    Run(sorted, rotation, now, |sorted|)
  }

  ghost predicate Ascending(s: seq<nat>)
  {
    forall a, b :: 0 <= a < b < |s| ==> s[a] < s[b]
  }

  /** A list in strictly ascending order is determined by its members, so
      the ascending lists `to_skip` and `to_delete` are pinned down by which
      positions they hold. */
  lemma {:induction false} AscendingByMembers(xs: seq<nat>, ys: seq<nat>)
    requires Ascending(xs) && Ascending(ys)
    requires forall x :: x in xs <==> x in ys
    ensures xs == ys
    decreases |xs|
  {
    assert ys != [] ==> ys[0] in ys;
    if xs != [] {
      HeadsEqual(xs, ys);
      TailsSameMembers(xs, ys);
      AscendingTail(xs);
      AscendingTail(ys);
      AscendingByMembers(xs[1..], ys[1..]);
      assert xs == [xs[0]] + xs[1..];
      assert ys == [ys[0]] + ys[1..];
    }
  }

  /** Dropping the head keeps a list ascending. */
  lemma AscendingTail(xs: seq<nat>)
    requires Ascending(xs) && xs != []
    ensures Ascending(xs[1..])
  {
    forall a, b | 0 <= a < b < |xs| - 1
      ensures xs[1..][a] < xs[1..][b]
    {
      assert xs[1..][a] == xs[a + 1] && xs[1..][b] == xs[b + 1];
    }
  }

  /** Two ascending lists with the same members start with the same, least,
      member. */
  lemma HeadsEqual(xs: seq<nat>, ys: seq<nat>)
    requires Ascending(xs) && Ascending(ys) && xs != []
    requires forall x :: x in xs <==> x in ys
    ensures ys != [] && xs[0] == ys[0]
  {
    assert xs[0] in xs;
    var k :| 0 <= k < |ys| && ys[k] == xs[0];
    assert ys[0] in ys;
    var m :| 0 <= m < |xs| && xs[m] == ys[0];
    assert ys[0] <= ys[k] && xs[0] <= xs[m];
  }

  /** ... and then their tails have the same members. */
  lemma TailsSameMembers(xs: seq<nat>, ys: seq<nat>)
    requires Ascending(xs) && Ascending(ys) && xs != [] && ys != [] && xs[0] == ys[0]
    requires forall x :: x in xs <==> x in ys
    ensures forall x :: x in xs[1..] <==> x in ys[1..]
  {
    forall x
      ensures x in xs[1..] <==> x in ys[1..]
    {
      if x in xs[1..] {
        var a :| 1 <= a < |xs| && xs[a] == x;
        assert xs[0] < xs[a];
        assert x in ys;
        var b :| 0 <= b < |ys| && ys[b] == x;
        assert ys[1..][b - 1] == x;
      }
      if x in ys[1..] {
        var b :| 1 <= b < |ys| && ys[b] == x;
        assert ys[0] < ys[b];
        assert x in xs;
        var a :| 0 <= a < |xs| && xs[a] == x;
        assert xs[1..][a - 1] == x;
      }
    }
  }


  /** Every state the loop reaches is consistent with the snapshots seen so far. */
  lemma {:induction false} RunWellFormed(sorted: seq<Snapshot>, rotation: Rotation, now: int, k: nat)
    requires k <= |sorted|
    ensures WellFormed(Run(sorted, rotation, now, k), k)
  {
    RunSkip(sorted, rotation, now, k);
    RunSaved(sorted, rotation, now, k);
    var tally := Run(sorted, rotation, now, k);
    forall a | 0 <= a < |tally.skip|
      ensures tally.skip[a] < k
    {
      assert tally.skip[a] in tally.skip;
    }
  }

  /** `to_skip`: exactly the snapshots that are not completed, each once, in
      sorted order, so the source's `to_skip.sort!` leaves it as it is. */
  lemma SkipTheorem(sorted: seq<Snapshot>, rotation: Rotation, now: int)
    ensures var skip := Final(sorted, rotation, now).skip;
      && (forall j :: j in skip <==> 0 <= j < |sorted| && !sorted[j].Completed())
      && Ascending(skip)
      && (forall a :: 0 <= a < |skip| ==> skip[a] < |sorted|)
      && (SortedByCreation(sorted) ==> SortedByCreation(Select(sorted, skip)))
  {
    RunSkip(sorted, rotation, now, |sorted|);
    RunWellFormed(sorted, rotation, now, |sorted|);
  }

  /** The positions below `k` whose snapshot is not completed, ascending. */
  function PendingPositions(sorted: seq<Snapshot>, k: nat): (r: seq<nat>)
    requires k <= |sorted|
    ensures forall j :: j in r <==> 0 <= j < k && !sorted[j].Completed()
    ensures forall a :: 0 <= a < |r| ==> r[a] < k
    ensures Ascending(r)
  {
    if k == 0 then []
    else PendingPositions(sorted, k - 1) + (if sorted[k - 1].Completed() then [] else [k - 1])
  }

  lemma SelectAppend(sorted: seq<Snapshot>, xs: seq<nat>, ys: seq<nat>)
    requires forall a :: 0 <= a < |xs| ==> xs[a] < |sorted|
    requires forall a :: 0 <= a < |ys| ==> ys[a] < |sorted|
    ensures Select(sorted, xs + ys) == Select(sorted, xs) + Select(sorted, ys)
  {
  }

  /** Picking the pending positions picks the pending snapshots, in order. */
  lemma {:induction false} SelectPending(sorted: seq<Snapshot>, k: nat)
    requires k <= |sorted|
    ensures Select(sorted, PendingPositions(sorted, k)) == NotCompleted(sorted[..k])
  {
    if k > 0 {
      SelectPending(sorted, k - 1);
      assert sorted[..k][..k - 1] == sorted[..k - 1];
      var last := if sorted[k - 1].Completed() then [] else [k - 1];
      SelectAppend(sorted, PendingPositions(sorted, k - 1), last);
    }
  }

  /** `to_skip` as snapshots: the snapshots that are not completed, each
      once, in the order of the sorted list. */
  lemma SkipValues(sorted: seq<Snapshot>, rotation: Rotation, now: int)
    ensures var skip := Final(sorted, rotation, now).skip;
      && (forall a :: 0 <= a < |skip| ==> skip[a] < |sorted|)
      && Select(sorted, skip) == NotCompleted(sorted)
  {
    SkipTheorem(sorted, rotation, now);
    AscendingByMembers(Final(sorted, rotation, now).skip, PendingPositions(sorted, |sorted|));
    SelectPending(sorted, |sorted|);
    assert sorted[..|sorted|] == sorted;
  }

  /** `to_save`: never empty; the newest snapshot alone when no bucket was
      filled; otherwise each snapshot stored in `@to_save`, each once. */
  lemma SaveTheorem(sorted: seq<Snapshot>, rotation: Rotation, now: int)
    requires |sorted| > 0
    ensures WellFormed(Final(sorted, rotation, now), |sorted|)
    ensures var tally := Final(sorted, rotation, now);
      var save := SavePositions(tally, |sorted|);
      && |save| >= 1
      && (|tally.saved| == 0 ==> save == [|sorted| - 1])
      && (|tally.saved| > 0 ==> forall p :: p in save <==> Stored(tally, p))
      && (forall a, b :: 0 <= a < b < |save| ==> save[a] != save[b])
  {
    var n := |sorted|;
    RunWellFormed(sorted, rotation, now, n);
    var tally := Final(sorted, rotation, now);
    if |tally.saved| > 0 {
      SavedInjective(sorted, rotation, now);
      SavePositionsOfValues(tally, n);
    }
  }

  /** Two keys of `@to_save` never hold the same snapshot: a snapshot is
      stored only under the one key it claims. */
  lemma SavedInjective(sorted: seq<Snapshot>, rotation: Rotation, now: int)
    ensures var saved := Final(sorted, rotation, now).saved;
      forall k1, k2 :: k1 in saved && k2 in saved && saved[k1] == saved[k2] ==> k1 == k2
  {
    RunSaved(sorted, rotation, now, |sorted|);
    var saved := Final(sorted, rotation, now).saved;
    forall k1, k2 | k1 in saved && k2 in saved && saved[k1] == saved[k2]
      ensures k1 == k2
    {
      assert Claims(sorted, rotation, now, saved[k1], k1);
      assert Claims(sorted, rotation, now, saved[k2], k2);
    }
  }

  /** The key list of a well-formed state is as long as the hash. */
  lemma OrderSize(tally: Tally, n: nat)
    requires WellFormed(tally, n)
    ensures |tally.order| == |tally.saved|
  {
    forall x
      ensures x in (set y | y in tally.order) <==> x in tally.saved.Keys
    {
      assert x in tally.order <==> x in tally.saved;
    }
    assert (set x | x in tally.order) == tally.saved.Keys;
    DistinctSize(tally.order);
    assert |tally.saved.Keys| == |tally.saved|;
  }

  /** When `@to_save` holds something, `to_save` lists the stored snapshots,
      each once when no two keys share one. */
  lemma SavePositionsOfValues(tally: Tally, n: nat)
    requires n > 0 && WellFormed(tally, n) && |tally.saved| > 0
    requires forall k1, k2 :: k1 in tally.saved && k2 in tally.saved && tally.saved[k1] == tally.saved[k2]
                          ==> k1 == k2
    ensures var save := SavePositions(tally, n);
      && |save| >= 1
      && (forall p :: p in save <==> Stored(tally, p))
      && (forall a, b :: 0 <= a < b < |save| ==> save[a] != save[b])
  {
    var save := SavePositions(tally, n);
    OrderSize(tally, n);
    assert forall a :: 0 <= a < |tally.order| ==> tally.order[a] in tally.order;
    assert forall a :: 0 <= a < |tally.order| ==> tally.order[a] in tally.saved;
    assert |save| == |tally.order|;
    assert forall a :: 0 <= a < |save| ==> save[a] == tally.saved[tally.order[a]];
    forall p | Stored(tally, p)
      ensures p in save
    {
      var key :| key in tally.saved && tally.saved[key] == p;
      var a :| 0 <= a < |tally.order| && tally.order[a] == key;
    }
    forall p | p in save
      ensures Stored(tally, p)
    {
      var a :| 0 <= a < |save| && save[a] == p;
      var key := tally.order[a];
      assert key in tally.saved && tally.saved[key] == p;
    }
  }

  /** `Array#-` keeps the order of its left operand. */
  lemma {:induction false} MinusAscending(xs: seq<nat>, ys: seq<nat>)
    requires Ascending(xs)
    ensures Ascending(Minus(xs, ys))
  {
    if xs != [] {
      MinusAscending(xs[1..], ys);
      var rest := Minus(xs[1..], ys);
      forall b | 0 <= b < |rest|
        ensures xs[0] < rest[b]
      {
        assert rest[b] in rest;
        var c :| 0 <= c < |xs[1..]| && xs[1..][c] == rest[b];
        assert xs[c + 1] == rest[b];
      }
    }
  }

  /** `to_delete`: the snapshots in neither `to_save` nor `to_skip`, in sorted
      order; with the other two lists it accounts for every input snapshot. */
  lemma DeleteTheorem(sorted: seq<Snapshot>, rotation: Rotation, now: int)
    requires |sorted| > 0
    ensures WellFormed(Final(sorted, rotation, now), |sorted|)
    ensures var tally := Final(sorted, rotation, now);
      var save := SavePositions(tally, |sorted|);
      var delete := DeletePositions(tally, |sorted|);
      && (forall j :: j in delete <==> 0 <= j < |sorted| && j !in save && j !in tally.skip)
      && (forall j :: 0 <= j < |sorted| ==> j in save || j in tally.skip || j in delete)
      && Ascending(delete)
  {
    var n := |sorted|;
    RunWellFormed(sorted, rotation, now, n);
    var tally := Final(sorted, rotation, now);
    var save := SavePositions(tally, n);
    forall j | 0 <= j < n
      ensures j in Positions(n)
    {
      assert Positions(n)[j] == j;
    }
    MinusAscending(Positions(n), save);
    MinusAscending(Minus(Positions(n), save), tally.skip);
  }

  /** The safety floor: `@to_save` stays empty exactly when no completed
      snapshot falls in any bucket; then `to_save` is the last snapshot of the
      sorted list, which is a newest one, and it is kept even when it is not
      completed, in which case it is in `to_skip` as well. */
  lemma SafetyFloor(sorted: seq<Snapshot>, rotation: Rotation, now: int)
    requires |sorted| > 0
    ensures WellFormed(Final(sorted, rotation, now), |sorted|)
    ensures |Final(sorted, rotation, now).saved| == 0
        <==> forall j :: 0 <= j < |sorted| ==> ClaimOf(sorted[j], rotation, now).None?
    ensures |Final(sorted, rotation, now).saved| == 0 ==>
      && SavePositions(Final(sorted, rotation, now), |sorted|) == [|sorted| - 1]
      && (SortedByCreation(sorted) ==>
            forall j :: 0 <= j < |sorted| ==> sorted[j].createdAt <= sorted[|sorted| - 1].createdAt)
      && (!sorted[|sorted| - 1].Completed() ==> |sorted| - 1 in Final(sorted, rotation, now).skip)
  {
    var n := |sorted|;
    RunWellFormed(sorted, rotation, now, n);
    RunSaved(sorted, rotation, now, n);
    RunSkip(sorted, rotation, now, n);
    var tally := Final(sorted, rotation, now);
    if |tally.saved| == 0 {
      forall j | 0 <= j < n
        ensures ClaimOf(sorted[j], rotation, now).None?
      {
        var claim := ClaimOf(sorted[j], rotation, now);
        var key := if claim.Some? then claim.value.key else 0;
        assert key !in tally.saved;
        assert !Claims(sorted, rotation, now, j, key);
      }
    } else {
      OrderSize(tally, n);
      var key := tally.order[0];
      assert key in tally.order;
      var j :| 0 <= j < n && Claims(sorted, rotation, now, j, key);
      assert ClaimOf(sorted[j], rotation, now).Some?;
    }
  }

  /** What becomes of a completed snapshot once some bucket is filled: it is
      saved exactly when it is stored under the key of the one bucket that
      claims it, and deleted otherwise, in particular when no bucket claims it
      or when it lost its bucket to another snapshot. */
  lemma CompletedFate(sorted: seq<Snapshot>, rotation: Rotation, now: int, j: nat)
    requires j < |sorted| && sorted[j].Completed()
    requires |Final(sorted, rotation, now).saved| > 0
    ensures WellFormed(Final(sorted, rotation, now), |sorted|)
    ensures j !in Final(sorted, rotation, now).skip
    ensures var tally := Final(sorted, rotation, now);
      var claim := ClaimOf(sorted[j], rotation, now);
      && (claim.None? ==> j in DeletePositions(tally, |sorted|))
      && (claim.Some? ==>
            && claim.value.key in tally.saved
            && (j in SavePositions(tally, |sorted|) <==> tally.saved[claim.value.key] == j)
            && (j in DeletePositions(tally, |sorted|) <==> tally.saved[claim.value.key] != j))
  {
    var n := |sorted|;
    SaveTheorem(sorted, rotation, now);
    DeleteTheorem(sorted, rotation, now);
    RunSkip(sorted, rotation, now, n);
    RunSaved(sorted, rotation, now, n);
    var tally := Final(sorted, rotation, now);
    var claim := ClaimOf(sorted[j], rotation, now);
    if Stored(tally, j) {
      var key :| key in tally.saved && tally.saved[key] == j;
      assert Claims(sorted, rotation, now, j, key);
    }
    if claim.Some? {
      assert Claims(sorted, rotation, now, j, claim.value.key);
    }
  }

  /** Daily keep-newest: of two completed snapshots claimed by the same daily
      bucket the earlier is deleted, and the key holds the later one or one
      after it; it holds the later one when no daily claimant follows it. */
  lemma DailyKeepsNewest(sorted: seq<Snapshot>, rotation: Rotation, now: int, i: nat, j: nat, key: int)
    requires i < j < |sorted|
    requires DailyClaims(sorted, rotation, now, i, key) && DailyClaims(sorted, rotation, now, j, key)
    ensures WellFormed(Final(sorted, rotation, now), |sorted|)
    ensures key in Final(sorted, rotation, now).saved && j <= Final(sorted, rotation, now).saved[key]
    ensures (forall m :: j < m < |sorted| ==> !DailyClaims(sorted, rotation, now, m, key))
        ==> Final(sorted, rotation, now).saved[key] == j
    ensures i in DeletePositions(Final(sorted, rotation, now), |sorted|)
  {
    RunWellFormed(sorted, rotation, now, |sorted|);
    RunSaved(sorted, rotation, now, |sorted|);
    var tally := Final(sorted, rotation, now);
    assert key in tally.saved;
    assert SomeDailyClaim(sorted, rotation, now, |sorted|, key);
    CompletedFate(sorted, rotation, now, i);
  }

  /** Weekly and monthly keep-oldest: a weekly or monthly claimant of a key
      that an earlier snapshot already claimed is deleted; when no daily
      bucket shares the key, the key holds its first claimant. */
  lemma OldestKept(sorted: seq<Snapshot>, rotation: Rotation, now: int, i: nat, j: nat, key: int)
    requires i < j < |sorted|
    requires Claims(sorted, rotation, now, i, key) && Claims(sorted, rotation, now, j, key)
    requires !DailyClaims(sorted, rotation, now, j, key)
    ensures WellFormed(Final(sorted, rotation, now), |sorted|)
    ensures key in Final(sorted, rotation, now).saved && Final(sorted, rotation, now).saved[key] != j
    ensures (forall m :: 0 <= m < |sorted| ==> !DailyClaims(sorted, rotation, now, m, key))
        && (forall m :: 0 <= m < i ==> !Claims(sorted, rotation, now, m, key))
        ==> Final(sorted, rotation, now).saved[key] == i
    ensures j in DeletePositions(Final(sorted, rotation, now), |sorted|)
  {
    RunWellFormed(sorted, rotation, now, |sorted|);
    RunSaved(sorted, rotation, now, |sorted|);
    var tally := Final(sorted, rotation, now);
    assert key in tally.saved;
    CompletedFate(sorted, rotation, now, j);
  }

  /** A count of zero or less gives an empty range `(0..n - 1)`. */
  function Buckets(count: int): nat
  {
    if count < 0 then 0 else count
  }

  /** The keys the buckets of one tier are stored under. */
  ghost function TierKeys(tier: Tier, now: int, count: int): set<int>
  {
    set i | 0 <= i < count :: BucketKey(tier, now, i)
  }

  lemma {:induction false} TierKeysSize(tier: Tier, now: int, count: int)
    ensures |TierKeys(tier, now, count)| <= Buckets(count)
  {
    if count <= 0 {
      assert TierKeys(tier, now, count) == {};
    } else {
      TierKeysSize(tier, now, count - 1);
      assert TierKeys(tier, now, count)
          == TierKeys(tier, now, count - 1) + {BucketKey(tier, now, count - 1)};
    }
  }

  lemma SubsetSize(a: set<int>, b: set<int>)
    requires a <= b
    ensures |a| <= |b|
  {
    assert b == a + (b - a);
  }

  lemma {:induction false} DistinctSize(s: seq<int>)
    requires forall a, b :: 0 <= a < b < |s| ==> s[a] != s[b]
    ensures |set x | x in s| == |s|
  {
    if s != [] {
      var last := s[|s| - 1];
      var init := s[..|s| - 1];
      DistinctSize(init);
      assert (set x | x in s) == (set x | x in init) + {last};
      assert last !in init;
    }
  }

  /** The key a claim is stored under belongs to its tier's buckets. */
  lemma ClaimInTierKeys(rotation: Rotation, now: int, t: int)
    requires FirstClaim(rotation, now, t).Some?
    ensures var c := FirstClaim(rotation, now, t).value;
      c.bucket < Count(rotation, c.tier) && c.key in TierKeys(c.tier, now, Count(rotation, c.tier))
  {
  }

  /** Every key of `@to_save` is the key of some bucket of the rotation. */
  lemma SavedKeysInBuckets(sorted: seq<Snapshot>, rotation: Rotation, now: int)
    ensures Final(sorted, rotation, now).saved.Keys
         <= TierKeys(Daily, now, rotation.daily) + TierKeys(Weekly, now, rotation.weekly)
          + TierKeys(Monthly, now, rotation.monthly)
  {
    RunSaved(sorted, rotation, now, |sorted|);
    var tally := Final(sorted, rotation, now);
    forall key | key in tally.saved
      ensures key in TierKeys(Daily, now, rotation.daily) + TierKeys(Weekly, now, rotation.weekly)
                   + TierKeys(Monthly, now, rotation.monthly)
    {
      var w := tally.saved[key];
      assert Claims(sorted, rotation, now, w, key);
      ClaimInTierKeys(rotation, now, sorted[w].createdAt);
    }
  }

  /** `to_save` holds at most one snapshot per bucket of the rotation, and one
      when the rotation has no bucket at all. */
  lemma SaveBound(sorted: seq<Snapshot>, rotation: Rotation, now: int)
    requires |sorted| > 0
    ensures WellFormed(Final(sorted, rotation, now), |sorted|)
    ensures var most := Buckets(rotation.daily) + Buckets(rotation.weekly) + Buckets(rotation.monthly);
      |SavePositions(Final(sorted, rotation, now), |sorted|)| <= if most == 0 then 1 else most
  {
    RunWellFormed(sorted, rotation, now, |sorted|);
    var tally := Final(sorted, rotation, now);
    var daily := TierKeys(Daily, now, rotation.daily);
    var weekly := TierKeys(Weekly, now, rotation.weekly);
    var monthly := TierKeys(Monthly, now, rotation.monthly);
    SavedKeysInBuckets(sorted, rotation, now);
    SubsetSize(tally.saved.Keys, daily + weekly + monthly);
    assert |daily + weekly| <= |daily| + |weekly|;
    TierKeysSize(Daily, now, rotation.daily);
    TierKeysSize(Weekly, now, rotation.weekly);
    TierKeysSize(Monthly, now, rotation.monthly);
    DistinctSize(tally.order);
    assert (set x | x in tally.order) == tally.saved.Keys;
  }
}
