/** The two data classes of the pruner: a snapshot record and the rotation
    policy, and the ordering the analyzer sorts by. */
module Snapshots {
  import opened Wrappers

  /** A snapshot as the EC2 inventory describes it; `createdAt` is the start
      time in seconds since the epoch, UTC. */
  datatype Snapshot = Snapshot(snapshotId: string, volumeId: string, status: string, createdAt: int)
  {
    /** `completed?`: only a completed snapshot is analysed for retention. */
    predicate Completed()
    {
      status == "completed"
    }
  }

  /** The snapshots that are not completed, in their order. */
  function NotCompleted(s: seq<Snapshot>): (r: seq<Snapshot>)
    ensures forall x :: x in r <==> x in s && !x.Completed()
    ensures |r| <= |s|
  {
    if s == [] then []
    else
      var last := s[|s| - 1];
      assert s == s[..|s| - 1] + [last];
      NotCompleted(s[..|s| - 1]) + (if last.Completed() then [] else [last])
  }

  /** `<=>`: compares two snapshots by creation time. */
  function Compare(a: Snapshot, b: Snapshot): (r: int)
    ensures r == -1 || r == 0 || r == 1
    ensures r < 0 <==> a.createdAt < b.createdAt
    ensures r > 0 <==> b.createdAt < a.createdAt
  {
    if a.createdAt < b.createdAt then -1
    else if a.createdAt == b.createdAt then 0
    else 1
  }

  /** `<=>` is a total preorder: antisymmetric in sign and transitive. */
  lemma CompareIsTotalPreorder(a: Snapshot, b: Snapshot, c: Snapshot)
    ensures Compare(a, b) == -Compare(b, a)
    ensures Compare(a, b) <= 0 && Compare(b, c) <= 0 ==> Compare(a, c) <= 0
  {
  }

  /** The options a caller passes for the rotation; an absent option is `None`. */
  datatype RotationOptions = RotationOptions(daily: Option<int>, weekly: Option<int>, monthly: Option<int>)

  /** The number of daily, weekly and monthly buckets. A count of zero or less
      gives that tier no bucket at all. */
  datatype Rotation = Rotation(daily: int, weekly: int, monthly: int)

  const DefaultDaily: int := 7
  const DefaultWeekly: int := 12
  const DefaultMonthly: int := 14

  function OrDefault(option: Option<int>, default: int): int
  {
    match option
    case Some(n) => n
    case None => default
  }

  /** `Rotation#initialize`: each absent option takes its default. */
  function NewRotation(options: RotationOptions): (r: Rotation)
    ensures options.daily.Some? ==> r.daily == options.daily.value
    ensures options.weekly.Some? ==> r.weekly == options.weekly.value
    ensures options.monthly.Some? ==> r.monthly == options.monthly.value
    ensures options.daily.None? ==> r.daily == 7
    ensures options.weekly.None? ==> r.weekly == 12
    ensures options.monthly.None? ==> r.monthly == 14
  {
    Rotation(OrDefault(options.daily, DefaultDaily),
             OrDefault(options.weekly, DefaultWeekly),
             OrDefault(options.monthly, DefaultMonthly))
  }

  /** Ascending by creation time. */
  ghost predicate SortedByCreation(s: seq<Snapshot>)
  {
    forall i, j :: 0 <= i < j < |s| ==> s[i].createdAt <= s[j].createdAt
  }

  /** Putting an element no later than every element in front keeps the order. */
  lemma PrependSorted(x: Snapshot, s: seq<Snapshot>)
    requires SortedByCreation(s)
    requires forall i :: 0 <= i < |s| ==> x.createdAt <= s[i].createdAt
    ensures SortedByCreation([x] + s)
  {
    var r := [x] + s;
    forall i, j | 0 <= i < j < |r|
      ensures r[i].createdAt <= r[j].createdAt
    {
      assert r[j] == s[j - 1];
      if i > 0 { assert r[i] == s[i - 1]; }
    }
  }

  /** Places `x` before the first element that it does not compare greater than. */
  function Insert(x: Snapshot, s: seq<Snapshot>): (r: seq<Snapshot>)
    requires SortedByCreation(s)
    ensures SortedByCreation(r)
    ensures multiset(r) == multiset(s) + multiset{x}
  {
    if s == [] || Compare(x, s[0]) <= 0 then
      PrependSorted(x, s);
      [x] + s
    else
      var rest := Insert(x, s[1..]);
      assert s == [s[0]] + s[1..];
      assert forall i :: 0 <= i < |rest| ==> s[0].createdAt <= rest[i].createdAt by {
        forall i | 0 <= i < |rest|
          ensures s[0].createdAt <= rest[i].createdAt
        {
          assert rest[i] in multiset(rest);
          if rest[i] != x {
            assert rest[i] in multiset(s[1..]);
            var j :| 0 <= j < |s[1..]| && s[1..][j] == rest[i];
            assert s[j + 1] == rest[i];
          }
        }
      }
      PrependSorted(s[0], rest);
      [s[0]] + rest
  }

  /** `snapshots.sort`: the input in ascending order of creation time. Ruby's
      sort leaves the order of equal creation times unspecified; this one
      keeps them in input order. */
  function SortByCreation(s: seq<Snapshot>): (r: seq<Snapshot>)
    ensures SortedByCreation(r)
    ensures multiset(r) == multiset(s)
    ensures |r| == |s|
  {
    if s == [] then []
    else
      assert s == [s[0]] + s[1..];
      Insert(s[0], SortByCreation(s[1..]))
  }

  /** Sorting an input that is already in order returns it unchanged. */
  lemma {:induction false} SortSortedIsIdentity(s: seq<Snapshot>)
    requires SortedByCreation(s)
    ensures SortByCreation(s) == s
  {
    if s != [] {
      SortSortedIsIdentity(s[1..]);
      assert SortByCreation(s[1..]) == s[1..];
      assert s == [s[0]] + s[1..];
    }
  }

  /** The last element of a sorted permutation of `s` is a newest element of `s`. */
  lemma LastOfSorted(r: seq<Snapshot>, s: seq<Snapshot>)
    requires |r| > 0 && SortedByCreation(r) && multiset(r) == multiset(s)
    ensures r[|r| - 1] in s && forall x :: x in s ==> x.createdAt <= r[|r| - 1].createdAt
  {
    assert r[|r| - 1] in multiset(r);
    forall x | x in s
      ensures x.createdAt <= r[|r| - 1].createdAt
    {
      assert x in multiset(r);
      var i :| 0 <= i < |r| && r[i] == x;
    }
  }

  /** After sorting, the last element is a newest snapshot of the input. */
  lemma LastIsNewest(s: seq<Snapshot>)
    requires |s| > 0
    ensures var r := SortByCreation(s);
      r[|r| - 1] in s && forall x :: x in s ==> x.createdAt <= r[|r| - 1].createdAt
  {
    LastOfSorted(SortByCreation(s), s);
  }
}
