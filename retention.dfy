/** What `analyze_snapshots` leaves behind, stated without the loop: which
    positions are skipped, which key holds which snapshot, and what `to_save`
    and `to_delete` then are. */
module Retention {
  import opened Wrappers
  import opened Snapshots
  import opened Analysis

  /** The snapshot at position `j` is completed and claims key `key`. */
  predicate Claims(sorted: seq<Snapshot>, rotation: Rotation, now: int, j: int, key: int)
  {
    0 <= j < |sorted| && ClaimOf(sorted[j], rotation, now).Some?
    && ClaimOf(sorted[j], rotation, now).value.key == key
  }

  /** ... and the claim is the daily tier's. */
  predicate DailyClaims(sorted: seq<Snapshot>, rotation: Rotation, now: int, j: int, key: int)
  {
    Claims(sorted, rotation, now, j, key) && ClaimOf(sorted[j], rotation, now).value.tier == Daily
  }

  ghost predicate SomeDailyClaim(sorted: seq<Snapshot>, rotation: Rotation, now: int, k: int, key: int)
  {
    exists j :: 0 <= j < k && DailyClaims(sorted, rotation, now, j, key)
  }

  /** Among the first `k` snapshots, `w` is the one a key ends up holding:
      the LAST daily claimant when the key has one (`=` overwrites), and the
      FIRST claimant otherwise (`||=` keeps what is there). */
  ghost predicate IsWinner(sorted: seq<Snapshot>, rotation: Rotation, now: int, k: int, key: int, w: int)
  {
    && 0 <= w < k
    && Claims(sorted, rotation, now, w, key)
    && if SomeDailyClaim(sorted, rotation, now, k, key) then
         && DailyClaims(sorted, rotation, now, w, key)
         && forall j :: w < j < k ==> !DailyClaims(sorted, rotation, now, j, key)
       else
         forall j :: 0 <= j < w ==> !Claims(sorted, rotation, now, j, key)
  }

  /** The key list of `@to_save` names each of its keys exactly once. */
  ghost predicate KeysListedOnce(tally: Tally)
  {
    && (forall key :: key in tally.order <==> key in tally.saved)
    && (forall a, b :: 0 <= a < b < |tally.order| ==> tally.order[a] != tally.order[b])
  }

  /** `@to_skip` after `k` steps: the positions of the snapshots that are not
      completed, each once, in ascending order. */
  lemma {:induction false} RunSkip(sorted: seq<Snapshot>, rotation: Rotation, now: int, k: nat)
    requires k <= |sorted|
    ensures var skip := Run(sorted, rotation, now, k).skip;
      && (forall j :: j in skip <==> 0 <= j < k && !sorted[j].Completed())
      && (forall a, b :: 0 <= a < b < |skip| ==> skip[a] < skip[b])
  {
    if k > 0 {
      RunSkip(sorted, rotation, now, k - 1);
      var before := Run(sorted, rotation, now, k - 1);
      OfferSkip(before, k - 1, sorted[k - 1], rotation, now);
      SkipStep(sorted, k, before.skip, Run(sorted, rotation, now, k).skip);
    }
  }

  /** Pushing position `k - 1` when its snapshot is not completed keeps
      `@to_skip` the ascending list of such positions. */
  lemma SkipStep(sorted: seq<Snapshot>, k: nat, before: seq<nat>, after: seq<nat>)
    requires 0 < k <= |sorted|
    requires forall j :: j in before <==> 0 <= j < k - 1 && !sorted[j].Completed()
    requires forall a, b :: 0 <= a < b < |before| ==> before[a] < before[b]
    requires after == if sorted[k - 1].Completed() || k - 1 in before then before else before + [k - 1]
    ensures forall j :: j in after <==> 0 <= j < k && !sorted[j].Completed()
    ensures forall a, b :: 0 <= a < b < |after| ==> after[a] < after[b]
  {
    assert forall a :: 0 <= a < |before| ==> before[a] in before;
  }

  /** `@to_skip` grows by the snapshot exactly when it is not completed. */
  lemma OfferSkip(tally: Tally, pos: nat, s: Snapshot, rotation: Rotation, now: int)
    ensures Offer(tally, pos, s, rotation, now).skip
         == if s.Completed() || pos in tally.skip then tally.skip else tally.skip + [pos]
  {
  }

  /** `@to_save` after `k` steps: a key is present exactly when one of the
      first `k` snapshots claims it, and it holds that key's winner; its key
      list names each present key once. */
  ghost predicate SavedInvariant(sorted: seq<Snapshot>, rotation: Rotation, now: int, k: nat)
    requires k <= |sorted|
  {
    SavedExactlyClaimed(sorted, rotation, now, k) && WinnersSaved(sorted, rotation, now, k)
    && KeysListedOnce(Run(sorted, rotation, now, k))
  }

  /** After `k` steps a key is present exactly when one of the first `k`
      snapshots claims it. */
  ghost predicate SavedExactlyClaimed(sorted: seq<Snapshot>, rotation: Rotation, now: int, k: nat)
    requires k <= |sorted|
  {
    forall key :: key in Run(sorted, rotation, now, k).saved
             <==> exists j :: 0 <= j < k && Claims(sorted, rotation, now, j, key)
  }

  /** After `k` steps each present key holds its winner. */
  ghost predicate WinnersSaved(sorted: seq<Snapshot>, rotation: Rotation, now: int, k: nat)
    requires k <= |sorted|
  {
    forall key :: key in Run(sorted, rotation, now, k).saved
             ==> IsWinner(sorted, rotation, now, k, key, Run(sorted, rotation, now, k).saved[key])
  }

  /** `analyze_snapshots` keeps `SavedInvariant` from the empty hash on. */
  lemma {:induction false} RunSaved(sorted: seq<Snapshot>, rotation: Rotation, now: int, k: nat)
    requires k <= |sorted|
    ensures SavedInvariant(sorted, rotation, now, k)
  {
    if k > 0 {
      RunSaved(sorted, rotation, now, k - 1);
      SavedStep(sorted, rotation, now, k - 1);
    }
  }

  /** One iteration of `analyze_snapshots` keeps `SavedInvariant`. */
  lemma SavedStep(sorted: seq<Snapshot>, rotation: Rotation, now: int, p: nat)
    requires p < |sorted| && SavedInvariant(sorted, rotation, now, p)
    ensures SavedInvariant(sorted, rotation, now, p + 1)
  {
    if ClaimOf(sorted[p], rotation, now).None? {
      UnclaimedStep(sorted, rotation, now, p);
    } else {
      ClaimedStep(sorted, rotation, now, p);
    }
  }

  /** A snapshot that is skipped or in no bucket leaves `@to_save` as it was. */
  lemma OfferUnclaimed(tally: Tally, pos: nat, s: Snapshot, rotation: Rotation, now: int)
    requires ClaimOf(s, rotation, now).None?
    ensures Offer(tally, pos, s, rotation, now) == if s.Completed() then tally else Skip(tally, pos)
  {
  }

  lemma UnclaimedStep(sorted: seq<Snapshot>, rotation: Rotation, now: int, p: nat)
    requires p < |sorted| && SavedInvariant(sorted, rotation, now, p)
    requires ClaimOf(sorted[p], rotation, now).None?
    ensures SavedInvariant(sorted, rotation, now, p + 1)
  {
    var before, after := Run(sorted, rotation, now, p), Run(sorted, rotation, now, p + 1);
    OfferUnclaimed(before, p, sorted[p], rotation, now);
    assert after.saved == before.saved && after.order == before.order;
    UnclaimedKeys(sorted, rotation, now, p);
    forall key | key in after.saved
      ensures IsWinner(sorted, rotation, now, p + 1, key, after.saved[key])
    {
      NoNewClaim(sorted, rotation, now, p, key);
    }
  }

  /** An unclaimed step adds no key. */
  lemma UnclaimedKeys(sorted: seq<Snapshot>, rotation: Rotation, now: int, p: nat)
    requires p < |sorted| && SavedExactlyClaimed(sorted, rotation, now, p)
    requires ClaimOf(sorted[p], rotation, now).None?
    requires Run(sorted, rotation, now, p + 1).saved == Run(sorted, rotation, now, p).saved
    ensures SavedExactlyClaimed(sorted, rotation, now, p + 1)
  {
    forall key | exists j :: 0 <= j < p + 1 && Claims(sorted, rotation, now, j, key)
      ensures key in Run(sorted, rotation, now, p).saved
    {
      var j :| 0 <= j < p + 1 && Claims(sorted, rotation, now, j, key);
      assert j < p;
    }
  }

  /** A claimed snapshot is stored with `=` by the daily tier and with `||=`
      by the other two. */
  lemma OfferClaimed(tally: Tally, pos: nat, s: Snapshot, rotation: Rotation, now: int)
    requires ClaimOf(s, rotation, now).Some?
    ensures var c := ClaimOf(s, rotation, now).value;
      Offer(tally, pos, s, rotation, now)
        == if c.tier == Daily then SaveNewest(tally, c.key, pos) else SaveOldest(tally, c.key, pos)
  {
  }

  /** Storing a position keeps the key list free of repeats. */
  lemma SavesKeepKeysListedOnce(tally: Tally, key: int, pos: nat)
    requires KeysListedOnce(tally)
    ensures KeysListedOnce(SaveNewest(tally, key, pos))
    ensures KeysListedOnce(SaveOldest(tally, key, pos))
  {
    assert forall a :: 0 <= a < |tally.order| ==> tally.order[a] in tally.order;
  }

  /** Step `k` of the analysis on a snapshot that meets the claim `c`. */
  lemma RunClaimed(sorted: seq<Snapshot>, rotation: Rotation, now: int, k: nat, before: Tally, c: Claim)
    requires 0 < k <= |sorted| && Run(sorted, rotation, now, k - 1) == before
    requires ClaimOf(sorted[k - 1], rotation, now) == Some(c)
    ensures Run(sorted, rotation, now, k)
         == if c.tier == Daily then SaveNewest(before, c.key, k - 1) else SaveOldest(before, c.key, k - 1)
  {
    OfferClaimed(before, k - 1, sorted[k - 1], rotation, now);
  }

  /** Step `k` of the analysis on a snapshot that meets no claim. */
  lemma RunUnclaimed(sorted: seq<Snapshot>, rotation: Rotation, now: int, k: nat, before: Tally)
    requires 0 < k <= |sorted| && Run(sorted, rotation, now, k - 1) == before
    requires ClaimOf(sorted[k - 1], rotation, now).None?
    ensures Run(sorted, rotation, now, k) == if sorted[k - 1].Completed() then before else Skip(before, k - 1)
  {
    OfferUnclaimed(before, k - 1, sorted[k - 1], rotation, now);
  }

  /** A claimant is stored under its key when the daily tier claims it or
      the key is free; every other key keeps its snapshot. */
  lemma ClaimedStep(sorted: seq<Snapshot>, rotation: Rotation, now: int, p: nat)
    requires p < |sorted| && SavedInvariant(sorted, rotation, now, p)
    requires ClaimOf(sorted[p], rotation, now).Some?
    ensures SavedInvariant(sorted, rotation, now, p + 1)
  {
    var c := ClaimOf(sorted[p], rotation, now).value;
    var before := Run(sorted, rotation, now, p);
    OfferClaimed(before, p, sorted[p], rotation, now);
    SavesKeepKeysListedOnce(before, c.key, p);
    OtherKeysKept(sorted, rotation, now, p);
    ClaimedKeysSaved(sorted, rotation, now, p);
    if c.tier == Daily {
      DailyWinner(sorted, rotation, now, p);
    } else if c.key in before.saved {
      TakenKeyWinner(sorted, rotation, now, p);
    } else {
      FreeKeyWinner(sorted, rotation, now, p);
    }
  }

  /** A daily claimant overwrites its key and becomes its winner. */
  lemma DailyWinner(sorted: seq<Snapshot>, rotation: Rotation, now: int, p: nat)
    requires p < |sorted| && ClaimOf(sorted[p], rotation, now).Some?
    requires ClaimOf(sorted[p], rotation, now).value.tier == Daily
    ensures var c := ClaimOf(sorted[p], rotation, now).value;
      && Run(sorted, rotation, now, p + 1) == SaveNewest(Run(sorted, rotation, now, p), c.key, p)
      && IsWinner(sorted, rotation, now, p + 1, c.key, p)
  {
    var c := ClaimOf(sorted[p], rotation, now).value;
    OfferClaimed(Run(sorted, rotation, now, p), p, sorted[p], rotation, now);
    assert DailyClaims(sorted, rotation, now, p, c.key);
  }

  /** A weekly or monthly claimant of a key already held changes nothing. */
  lemma TakenKeyWinner(sorted: seq<Snapshot>, rotation: Rotation, now: int, p: nat)
    requires p < |sorted| && ClaimOf(sorted[p], rotation, now).Some?
    requires ClaimOf(sorted[p], rotation, now).value.tier != Daily
    requires var key := ClaimOf(sorted[p], rotation, now).value.key;
      && key in Run(sorted, rotation, now, p).saved
      && IsWinner(sorted, rotation, now, p, key, Run(sorted, rotation, now, p).saved[key])
    ensures var c := ClaimOf(sorted[p], rotation, now).value;
      && Run(sorted, rotation, now, p + 1) == Run(sorted, rotation, now, p)
      && IsWinner(sorted, rotation, now, p + 1, c.key, Run(sorted, rotation, now, p).saved[c.key])
  {
    var c := ClaimOf(sorted[p], rotation, now).value;
    OfferClaimed(Run(sorted, rotation, now, p), p, sorted[p], rotation, now);
    assert !DailyClaims(sorted, rotation, now, p, c.key);
    SameDailyClaims(sorted, rotation, now, p, c.key);
  }

  /** A weekly or monthly claimant of a free key takes it and is its winner. */
  lemma FreeKeyWinner(sorted: seq<Snapshot>, rotation: Rotation, now: int, p: nat)
    requires p < |sorted| && SavedInvariant(sorted, rotation, now, p)
    requires ClaimOf(sorted[p], rotation, now).Some?
    requires ClaimOf(sorted[p], rotation, now).value.tier != Daily
    requires ClaimOf(sorted[p], rotation, now).value.key !in Run(sorted, rotation, now, p).saved
    ensures var c := ClaimOf(sorted[p], rotation, now).value;
      && Run(sorted, rotation, now, p + 1) == SaveNewest(Run(sorted, rotation, now, p), c.key, p)
      && IsWinner(sorted, rotation, now, p + 1, c.key, p)
  {
    var c := ClaimOf(sorted[p], rotation, now).value;
    OfferClaimed(Run(sorted, rotation, now, p), p, sorted[p], rotation, now);
    assert forall j :: 0 <= j < p ==> !Claims(sorted, rotation, now, j, c.key);
    SameDailyClaims(sorted, rotation, now, p, c.key);
    assert !SomeDailyClaim(sorted, rotation, now, p + 1, c.key);
  }

  /** A claimed step leaves every key it does not claim with its snapshot
      and its winner. */
  lemma OtherKeysKept(sorted: seq<Snapshot>, rotation: Rotation, now: int, p: nat)
    requires p < |sorted| && SavedInvariant(sorted, rotation, now, p)
    requires ClaimOf(sorted[p], rotation, now).Some?
    ensures var before, after := Run(sorted, rotation, now, p), Run(sorted, rotation, now, p + 1);
      forall key :: key in after.saved && key != ClaimOf(sorted[p], rotation, now).value.key ==>
        && key in before.saved && after.saved[key] == before.saved[key]
        && IsWinner(sorted, rotation, now, p + 1, key, after.saved[key])
  {
    var before, after := Run(sorted, rotation, now, p), Run(sorted, rotation, now, p + 1);
    var c := ClaimOf(sorted[p], rotation, now).value;
    OfferClaimed(before, p, sorted[p], rotation, now);
    forall key | key in after.saved && key != c.key
      ensures key in before.saved && after.saved[key] == before.saved[key]
      ensures IsWinner(sorted, rotation, now, p + 1, key, after.saved[key])
    {
      NoNewClaim(sorted, rotation, now, p, key);
    }
  }

  /** After a claimed step the keys present are those claimed so far, the
      new claimant's among them. */
  lemma ClaimedKeysSaved(sorted: seq<Snapshot>, rotation: Rotation, now: int, p: nat)
    requires p < |sorted| && SavedExactlyClaimed(sorted, rotation, now, p)
    requires ClaimOf(sorted[p], rotation, now).Some?
    ensures ClaimOf(sorted[p], rotation, now).value.key in Run(sorted, rotation, now, p + 1).saved
    ensures SavedExactlyClaimed(sorted, rotation, now, p + 1)
  {
    var k := p + 1;
    var before, after := Run(sorted, rotation, now, p), Run(sorted, rotation, now, k);
    var c := ClaimOf(sorted[p], rotation, now).value;
    OfferClaimed(before, p, sorted[p], rotation, now);
    assert after.saved.Keys == before.saved.Keys + {c.key};
    assert Claims(sorted, rotation, now, p, c.key);
    forall key | key in after.saved
      ensures exists j :: 0 <= j < k && Claims(sorted, rotation, now, j, key)
    {
      if key != c.key {
        var j :| 0 <= j < p && Claims(sorted, rotation, now, j, key);
      }
    }
    forall key | exists j :: 0 <= j < k && Claims(sorted, rotation, now, j, key)
      ensures key in after.saved
    {
      var j :| 0 <= j < k && Claims(sorted, rotation, now, j, key);
      if j < p {
        assert key in before.saved;
      }
    }
  }

  /** A step whose snapshot is not a daily claimant of `key` leaves the
      question "has `key` a daily claimant" as it was. */
  lemma SameDailyClaims(sorted: seq<Snapshot>, rotation: Rotation, now: int, p: nat, key: int)
    requires p < |sorted| && !DailyClaims(sorted, rotation, now, p, key)
    ensures SomeDailyClaim(sorted, rotation, now, p + 1, key) == SomeDailyClaim(sorted, rotation, now, p, key)
  {
    if SomeDailyClaim(sorted, rotation, now, p + 1, key) {
      var j :| 0 <= j < p + 1 && DailyClaims(sorted, rotation, now, j, key);
      assert j < p;
    }
  }

  /** A step whose snapshot does not claim `key` keeps the winner of `key`. */
  lemma NoNewClaim(sorted: seq<Snapshot>, rotation: Rotation, now: int, p: nat, key: int)
    requires p < |sorted| && !Claims(sorted, rotation, now, p, key)
    requires key in Run(sorted, rotation, now, p).saved
    requires IsWinner(sorted, rotation, now, p, key, Run(sorted, rotation, now, p).saved[key])
    ensures key in Run(sorted, rotation, now, p + 1).saved
    ensures Run(sorted, rotation, now, p + 1).saved[key] == Run(sorted, rotation, now, p).saved[key]
    ensures IsWinner(sorted, rotation, now, p + 1, key, Run(sorted, rotation, now, p + 1).saved[key])
  {
    SameDailyClaims(sorted, rotation, now, p, key);
  }
}
