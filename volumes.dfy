/** `Base#volumes`: the account's snapshots grouped by volume, each group in
    inventory order. */
module Volumes {
  import opened Snapshots

  /** The records of volume `v`, in their original order. */
  function OfVolume(records: seq<Snapshot>, v: string): (r: seq<Snapshot>)
    ensures forall x :: x in r <==> x in records && x.volumeId == v
    ensures |r| <= |records|
  {
    if records == [] then []
    else
      var last := records[|records| - 1];
      assert records == records[..|records| - 1] + [last];
      OfVolume(records[..|records| - 1], v) + (if last.volumeId == v then [last] else [])
  }

  /** Appending a record appends it to its own volume's group only. */
  lemma OfVolumeAppend(records: seq<Snapshot>, x: Snapshot, v: string)
    ensures OfVolume(records + [x], v) == OfVolume(records, v) + if x.volumeId == v then [x] else []
  {
    assert (records + [x])[..|records|] == records;
  }

  /** A volume without records has an empty group. */
  lemma NoRecordsOfVolume(records: seq<Snapshot>, v: string)
    requires forall x :: x in records ==> x.volumeId != v
    ensures OfVolume(records, v) == []
  {
    var r := OfVolume(records, v);
    assert forall a :: 0 <= a < |r| ==> r[a] in r;
  }

  /** Grouping loses and duplicates nothing: a record occurs in its own
      volume's group as often as in the input, and in no other group. */
  lemma {:induction false} OfVolumeCounts(records: seq<Snapshot>, v: string, x: Snapshot)
    ensures multiset(OfVolume(records, v))[x] == if x.volumeId == v then multiset(records)[x] else 0
  {
    if records != [] {
      var front, last := records[..|records| - 1], records[|records| - 1];
      assert records == front + [last];
      OfVolumeCounts(front, v, x);
    }
  }

  /** The hash after grouping the records `seen`: exactly the volumes with
      records among them have an entry, holding those records in order. */
  ghost predicate Grouped(seen: seq<Snapshot>, volumes: map<string, seq<Snapshot>>)
  {
    && (forall v :: v in volumes <==> OfVolume(seen, v) != [])
    && (forall v :: v in volumes ==> volumes[v] == OfVolume(seen, v))
  }

  /** The key list names each entry of the hash once. */
  ghost predicate KeysListed(ids: seq<string>, volumes: map<string, seq<Snapshot>>)
  {
    && (forall v :: v in ids <==> v in volumes)
    && (forall a, b :: 0 <= a < b < |ids| ==> ids[a] != ids[b])
  }

  /** `volumes[id] ||= []; volumes[id].push(snapshot)` extends the group of
      the snapshot's volume and leaves every other entry alone. */
  ghost predicate Pushed(volumes: map<string, seq<Snapshot>>, x: Snapshot, volumes': map<string, seq<Snapshot>>)
  {
    && (forall w :: w in volumes' <==> w in volumes || w == x.volumeId)
    && volumes'[x.volumeId] == (if x.volumeId in volumes then volumes[x.volumeId] else []) + [x]
    && (forall w :: w in volumes && w != x.volumeId ==> volumes'[w] == volumes[w])
  }

  /** One iteration keeps the hash equal to the grouping of the records seen. */
  lemma GroupedStep(records: seq<Snapshot>, i: nat, volumes: map<string, seq<Snapshot>>, volumes': map<string, seq<Snapshot>>)
    requires i < |records|
    requires Grouped(records[..i], volumes)
    requires Pushed(volumes, records[i], volumes')
    ensures Grouped(records[..i + 1], volumes')
  {
    var seen, x := records[..i], records[i];
    assert records[..i + 1] == seen + [x];
    forall w
      ensures w in volumes' <==> OfVolume(seen + [x], w) != []
      ensures w in volumes' ==> volumes'[w] == OfVolume(seen + [x], w)
    {
      OfVolumeAppend(seen, x, w);
      if w == x.volumeId {
        assert OfVolume(seen + [x], w) == OfVolume(seen, w) + [x];
      } else {
        assert OfVolume(seen + [x], w) == OfVolume(seen, w);
      }
    }
  }

  /** One iteration appends a volume id to the key list exactly when the
      hash gains that key. */
  lemma KeysListedStep(ids: seq<string>, volumes: map<string, seq<Snapshot>>, x: Snapshot, volumes': map<string, seq<Snapshot>>)
    requires KeysListed(ids, volumes)
    requires Pushed(volumes, x, volumes')
    ensures KeysListed(if x.volumeId in volumes then ids else ids + [x.volumeId], volumes')
  {
    assert forall a :: 0 <= a < |ids| ==> ids[a] in ids;
  }

  /** The two assignments of an iteration, as one update of the hash. */
  lemma PushedByUpdate(volumes: map<string, seq<Snapshot>>, x: Snapshot)
    ensures var v := x.volumeId;
      var entry := if v in volumes then volumes else volumes[v := []];
      Pushed(volumes, x, entry[v := entry[v] + [x]])
  {
  }

  /** A complete grouping has an entry exactly for the volumes that occur,
      and no entry is empty. */
  lemma GroupsNonEmpty(records: seq<Snapshot>, volumes: map<string, seq<Snapshot>>)
    requires Grouped(records, volumes)
    ensures forall v :: v in volumes <==> exists x :: x in records && x.volumeId == v
    ensures forall v :: v in volumes ==> |volumes[v]| > 0
  {
    forall v
      ensures v in volumes <==> exists x :: x in records && x.volumeId == v
      ensures v in volumes ==> |volumes[v]| > 0
    {
      var group := OfVolume(records, v);
      if v in volumes {
        assert group[0] in group;
      }
    }
  }

  /** The hash built by `volumes`: one entry per volume id that occurs in the
      input, holding that volume's records; `ids` lists those keys, each
      once. */
  method GroupByVolume(records: seq<Snapshot>) returns (ids: seq<string>, volumes: map<string, seq<Snapshot>>)
    ensures forall v :: v in volumes <==> exists x :: x in records && x.volumeId == v
    ensures forall v :: v in volumes ==> volumes[v] == OfVolume(records, v) && |volumes[v]| > 0
    ensures forall v :: v in ids <==> v in volumes
    ensures forall a, b :: 0 <= a < b < |ids| ==> ids[a] != ids[b]
  {
    ids, volumes := [], map[];
    var i := 0;
    while i < |records|
      invariant 0 <= i <= |records|
      invariant Grouped(records[..i], volumes)
      invariant KeysListed(ids, volumes)
    {
      var snapshot := records[i];
      ghost var before, idsBefore := volumes, ids;
      if snapshot.volumeId !in volumes {
        volumes := volumes[snapshot.volumeId := []];
        ids := ids + [snapshot.volumeId];
      }
      volumes := volumes[snapshot.volumeId := volumes[snapshot.volumeId] + [snapshot]];
      PushedByUpdate(before, snapshot);
      GroupedStep(records, i, before, volumes);
      KeysListedStep(idsBefore, before, snapshot, volumes);
      i := i + 1;
    }
    assert records[..i] == records;
    GroupsNonEmpty(records, volumes);
  }
}
