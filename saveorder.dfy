/** The order of `to_save`. `@to_save.values` lists the stored snapshots in
    the order their keys entered the hash. On the sorted list that is
    creation order: a weekly or monthly key keeps the snapshot that first
    wrote it, and a daily key can be overwritten only while it is the last
    key that entered, since every completed snapshot between two claimants of
    a day that is claimed daily lies on that day. */
module SaveOrder {
  import opened Snapshots
  import opened Analysis
  import opened Windows
  import opened Retention
  import opened Outcomes

  /** Some snapshot before position `j` claims `key`. */
  ghost predicate ClaimedBefore(sorted: seq<Snapshot>, rotation: Rotation, now: int, j: int, key: int)
  {
    exists i :: 0 <= i < j && Claims(sorted, rotation, now, i, key)
  }

  /** `@to_save` after `k` steps: the positions it holds ascend along its key
      list, and the keys are listed in the order of their first claimants. */
  ghost predicate InsertionOrdered(sorted: seq<Snapshot>, rotation: Rotation, now: int, k: nat, tally: Tally)
  {
    && (forall a, b :: 0 <= a < b < |tally.order| && tally.order[a] in tally.saved && tally.order[b] in tally.saved
          ==> tally.saved[tally.order[a]] < tally.saved[tally.order[b]])
    && (forall a, b, j :: 0 <= a < b < |tally.order| && 0 <= j < k && Claims(sorted, rotation, now, j, tally.order[b])
          ==> ClaimedBefore(sorted, rotation, now, j, tally.order[a]))
  }

  /** What the loop has established before the step at position `p`. */
  ghost predicate Before(sorted: seq<Snapshot>, rotation: Rotation, now: int, p: nat, tally: Tally)
  {
    && p < |sorted|
    && WellFormed(tally, p)
    && (forall key :: key in tally.saved <==> ClaimedBefore(sorted, rotation, now, p, key))
    && InsertionOrdered(sorted, rotation, now, p, tally)
  }

  /** A daily claimant of a held key finds that key last in the key list: a
      key listed after it was first claimed by a snapshot lying between the
      key's own first claimant and this one, which then claims the same day. */
  lemma DailyKeyIsLast(sorted: seq<Snapshot>, rotation: Rotation, now: int, p: nat, tally: Tally, key: int)
    requires SortedByCreation(sorted) && Before(sorted, rotation, now, p, tally)
    requires DailyClaims(sorted, rotation, now, p, key) && key in tally.saved
    ensures |tally.order| > 0 && tally.order[|tally.order| - 1] == key
  {
    assert key in tally.order;
    var a :| 0 <= a < |tally.order| && tally.order[a] == key;
    if a + 1 < |tally.order| {
      var other := tally.order[a + 1];
      assert other in tally.order;
      var j :| 0 <= j < p && Claims(sorted, rotation, now, j, other);
      assert ClaimedBefore(sorted, rotation, now, j, key);
      var i :| 0 <= i < j && Claims(sorted, rotation, now, i, key);
      DailyKeyBetween(rotation, now, sorted[i].createdAt, sorted[j].createdAt, sorted[p].createdAt);
      assert false;
    }
  }

  /** A snapshot in no bucket changes neither the hash nor its key list. */
  lemma UnclaimedOrdered(sorted: seq<Snapshot>, rotation: Rotation, now: int, p: nat, tally: Tally, tally': Tally)
    requires Before(sorted, rotation, now, p, tally)
    requires ClaimOf(sorted[p], rotation, now).None?
    requires tally'.order == tally.order && tally'.saved == tally.saved
    ensures InsertionOrdered(sorted, rotation, now, p + 1, tally')
  {
  }

  /** `||=` on a held key changes nothing. */
  lemma HeldKeyOrdered(sorted: seq<Snapshot>, rotation: Rotation, now: int, p: nat, tally: Tally, tally': Tally, key: int)
    requires Before(sorted, rotation, now, p, tally)
    requires Claims(sorted, rotation, now, p, key) && key in tally.saved
    requires tally'.order == tally.order && tally'.saved == tally.saved
    ensures InsertionOrdered(sorted, rotation, now, p + 1, tally')
  {
    forall a, b, j | 0 <= a < b < |tally.order| && 0 <= j < p + 1 && Claims(sorted, rotation, now, j, tally.order[b])
      ensures ClaimedBefore(sorted, rotation, now, j, tally.order[a])
    {
      if j == p {
        assert tally.order[a] in tally.order;
      }
    }
  }

  /** A key claimed for the first time enters last, holding the newest position. */
  lemma FreeKeyOrdered(sorted: seq<Snapshot>, rotation: Rotation, now: int, p: nat, tally: Tally, tally': Tally, key: int)
    requires Before(sorted, rotation, now, p, tally)
    requires Claims(sorted, rotation, now, p, key) && key !in tally.saved
    requires tally'.order == tally.order + [key] && tally'.saved == tally.saved[key := p]
    ensures InsertionOrdered(sorted, rotation, now, p + 1, tally')
  {
    var n := |tally.order|;
    assert forall a :: 0 <= a < n ==> tally.order[a] in tally.order;
    forall a, b | 0 <= a < b < n + 1
      ensures tally'.saved[tally'.order[a]] < tally'.saved[tally'.order[b]]
    {
      assert tally'.order[a] == tally.order[a];
    }
    forall a, b, j | 0 <= a < b < n + 1 && 0 <= j < p + 1 && Claims(sorted, rotation, now, j, tally'.order[b])
      ensures ClaimedBefore(sorted, rotation, now, j, tally'.order[a])
    {
      assert tally'.order[a] == tally.order[a];
    }
  }

  /** `=` on a held daily key: that key is the last listed, so the newest
      position it now holds still ascends along the key list. */
  lemma DailyOverwriteOrdered(sorted: seq<Snapshot>, rotation: Rotation, now: int, p: nat, tally: Tally, tally': Tally, key: int)
    requires SortedByCreation(sorted) && Before(sorted, rotation, now, p, tally)
    requires DailyClaims(sorted, rotation, now, p, key) && key in tally.saved
    requires tally'.order == tally.order && tally'.saved == tally.saved[key := p]
    ensures InsertionOrdered(sorted, rotation, now, p + 1, tally')
  {
    DailyKeyIsLast(sorted, rotation, now, p, tally, key);
    var n := |tally.order|;
    assert forall a :: 0 <= a < n ==> tally.order[a] in tally.order;
    forall a, b | 0 <= a < b < n
      ensures tally'.saved[tally.order[a]] < tally'.saved[tally.order[b]]
    {
      assert tally.order[a] != tally.order[n - 1];
    }
    HeldKeyOrdered(sorted, rotation, now, p, tally, tally.(saved := tally.saved), key);
  }

  /** One iteration of `analyze_snapshots` keeps `InsertionOrdered`. */
  lemma OrderedStep(sorted: seq<Snapshot>, rotation: Rotation, now: int, p: nat)
    requires SortedByCreation(sorted) && p < |sorted|
    requires InsertionOrdered(sorted, rotation, now, p, Run(sorted, rotation, now, p))
    ensures InsertionOrdered(sorted, rotation, now, p + 1, Run(sorted, rotation, now, p + 1))
  {
    var tally := Run(sorted, rotation, now, p);
    var tally' := Run(sorted, rotation, now, p + 1);
    RunWellFormed(sorted, rotation, now, p);
    RunSaved(sorted, rotation, now, p);
    assert Before(sorted, rotation, now, p, tally);
    var claim := ClaimOf(sorted[p], rotation, now);
    if claim.None? {
      OfferUnclaimed(tally, p, sorted[p], rotation, now);
      UnclaimedOrdered(sorted, rotation, now, p, tally, tally');
    } else {
      var key := claim.value.key;
      assert Claims(sorted, rotation, now, p, key);
      if key !in tally.saved {
        FreeKeyOrdered(sorted, rotation, now, p, tally, tally', key);
      } else if claim.value.tier == Daily {
        DailyOverwriteOrdered(sorted, rotation, now, p, tally, tally', key);
      } else {
        HeldKeyOrdered(sorted, rotation, now, p, tally, tally', key);
      }
    }
  }

  /** `analyze_snapshots` keeps `InsertionOrdered` from the empty hash on. */
  lemma {:induction false} RunOrdered(sorted: seq<Snapshot>, rotation: Rotation, now: int, k: nat)
    requires SortedByCreation(sorted) && k <= |sorted|
    ensures InsertionOrdered(sorted, rotation, now, k, Run(sorted, rotation, now, k))
  {
    if k > 0 {
      RunOrdered(sorted, rotation, now, k - 1);
      OrderedStep(sorted, rotation, now, k - 1);
    }
  }

  /** `to_save` of the sorted list is in ascending position, hence creation,
      order, so the source's `to_save.sort!` would leave it as it is; being
      ascending, it is the one ascending list of the stored positions. */
  lemma SaveAscending(sorted: seq<Snapshot>, rotation: Rotation, now: int)
    requires |sorted| > 0 && SortedByCreation(sorted)
    ensures WellFormed(Final(sorted, rotation, now), |sorted|)
    ensures var save := SavePositions(Final(sorted, rotation, now), |sorted|);
      Ascending(save) && SortedByCreation(Select(sorted, save))
  {
    var n := |sorted|;
    RunWellFormed(sorted, rotation, now, n);
    RunOrdered(sorted, rotation, now, n);
    var tally := Final(sorted, rotation, now);
    assert forall a :: 0 <= a < |tally.order| ==> tally.order[a] in tally.order;
  }
}
