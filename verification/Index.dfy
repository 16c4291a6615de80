/** Rows grouped by owner for the emitter, rows whose owner does not exist dropped. */
module Index {
  import opened Basics
  import opened Grouping

  datatype Rows = Rows(start: seq<u32>, count: seq<u32>, rows: seq<u32>)

  /** The row numbers whose owner is `owner`, in order. */
  function RowsOwnedBy(owners: seq<nat>, owner: nat): seq<u32>
    requires |owners| <= NO_INDEX
  {
    if owners == [] then []
    else
      var last := |owners| - 1;
      RowsOwnedBy(owners[..last], owner) + (if owners[last] == owner then [last] else [])
  }

  function Numbered(owners: seq<nat>): (r: seq<(nat, u32)>)
    requires |owners| <= NO_INDEX
    ensures |r| == |owners|
    ensures forall i :: 0 <= i < |r| ==> r[i] == (owners[i], i)
  {
    seq(|owners|, i requires 0 <= i < |owners| => (owners[i], i))
  }

  lemma {:induction false} BucketOfNumbered(owners: seq<nat>, owner: nat)
    requires |owners| <= NO_INDEX
    ensures Bucket(Numbered(owners), owner) == RowsOwnedBy(owners, owner)
  {
    if owners != [] {
      var last := |owners| - 1;
      BucketOfNumbered(owners[..last], owner);
      assert Numbered(owners)[..last] == Numbered(owners[..last]);
    }
  }

  /** Buckets part way filled: `filled` of each, from where it starts. */
  ghost predicate Filling(
    pairs: seq<(nat, u32)>, buckets: nat, done: nat, rows: seq<u32>, start: seq<u32>, filled: seq<u32>)
    requires done <= |pairs|
  {
    && |start| == |filled| == buckets
    && forall bucket :: 0 <= bucket < buckets ==>
         start[bucket] == CountBelow(pairs, bucket)
         && Placed(pairs, done, rows, (start[bucket] as int) + filled[bucket], bucket)
  }

  lemma FillNext(
    pairs: seq<(nat, u32)>, buckets: nat, i: nat, rows: seq<u32>, start: seq<u32>, filled: seq<u32>)
    requires i < |pairs| < 0x1_0000_0000 && Filling(pairs, buckets, i, rows, start, filled)
    requires pairs[i].0 < buckets && |rows| == CountBelow(pairs, buckets)
    ensures var bucket, at := pairs[i].0, (start[pairs[i].0] as int) + filled[pairs[i].0];
            && at < |rows|
            && Filling(pairs, buckets, i + 1, rows[at := pairs[i].1], start, filled[bucket := filled[bucket] + 1])
  {
    var bucket := pairs[i].0;
    RoomFor(pairs, i, buckets);
    var at := (start[bucket] as int) + filled[bucket];
    assert Placed(pairs, i, rows, at, bucket);
    forall other | 0 <= other < buckets
      ensures Placed(pairs, i + 1, rows[at := pairs[i].1],
                     (start[other] as int) + filled[bucket := filled[bucket] + 1][other], other)
    {
      PlaceNext(pairs, i, rows, (start[other] as int) + filled[other], other, at,
                (start[other] as int) + filled[bucket := filled[bucket] + 1][other]);
    }
  }

  lemma FillSkips(pairs: seq<(nat, u32)>, buckets: nat, i: nat, rows: seq<u32>, start: seq<u32>, filled: seq<u32>)
    requires i < |pairs| && Filling(pairs, buckets, i, rows, start, filled) && pairs[i].0 >= buckets
    ensures Filling(pairs, buckets, i + 1, rows, start, filled)
  {
    forall bucket | 0 <= bucket < buckets
      ensures Placed(pairs, i + 1, rows, (start[bucket] as int) + filled[bucket], bucket)
    {
      BucketOfNext(pairs, i, bucket);
    }
  }

  lemma FillStarts(pairs: seq<(nat, u32)>, buckets: nat, rows: seq<u32>, start: seq<u32>, filled: seq<u32>)
    requires |start| == |filled| == buckets && |rows| == CountBelow(pairs, buckets)
    requires forall bucket :: 0 <= bucket < buckets ==>
               start[bucket] == CountBelow(pairs, bucket) && filled[bucket] == 0
    ensures Filling(pairs, buckets, 0, rows, start, filled)
  {
    assert pairs[..0] == [];
    forall bucket | 0 <= bucket < buckets
      ensures Placed(pairs, 0, rows, (start[bucket] as int) + filled[bucket], bucket)
    {
      CountBelowMonotone(pairs, bucket, buckets);
    }
  }

  /** The rows grouped under an owner, cut down to the ones that exist. */
  function RowsOf(grouped: Rows, owner: nat): seq<u32> {
    if owner >= |grouped.start| || owner >= |grouped.count| then []
    else
      var start: nat := grouped.start[owner];
      var end := Min(start + grouped.count[owner], |grouped.rows|);
      grouped.rows[Min(start, end)..end]
  }

  lemma FilledIsGrouped(
    owners: seq<nat>, buckets: nat, rows: seq<u32>, start: seq<u32>, count: seq<u32>, filled: seq<u32>, owner: nat)
    requires |owners| <= NO_INDEX && |count| == buckets
    requires Filling(Numbered(owners), buckets, |owners|, rows, start, filled)
    requires forall bucket :: 0 <= bucket < buckets ==> count[bucket] == |Bucket(Numbered(owners), bucket)|
    ensures RowsOf(Rows(start, count, rows), owner) == if owner < buckets then RowsOwnedBy(owners, owner) else []
  {
    if owner < buckets {
      var pairs := Numbered(owners);
      assert pairs[..|owners|] == pairs;
      assert Placed(pairs, |owners|, rows, (start[owner] as int) + filled[owner], owner);
      BucketOfNumbered(owners, owner);
    }
  }

  method Starts(pairs: seq<(nat, u32)>, buckets: nat, count: array<u32>) returns (start: seq<u32>, running: u32)
    requires |pairs| < 0x1_0000_0000 && count.Length == buckets
    requires forall bucket :: 0 <= bucket < buckets ==> count[bucket] == |Bucket(pairs, bucket)|
    ensures |start| == buckets && running == CountBelow(pairs, buckets)
    ensures forall bucket :: 0 <= bucket < buckets ==> start[bucket] == CountBelow(pairs, bucket)
  {
    start, running := [], 0;
    CountBelowZero(pairs);
    for bucket := 0 to buckets
      invariant |start| == bucket && running == CountBelow(pairs, bucket)
      invariant forall b :: 0 <= b < bucket ==> start[b] == CountBelow(pairs, b)
    {
      CountBelowNext(pairs, bucket);
      start := start + [running];
      // The sum never passes the number of rows, so it never saturates.
      running := (running as int) + count[bucket];
    }
  }

  method PlaceRow(pairs: seq<(nat, u32)>, row: u32, rows: array<u32>, start: seq<u32>, filled: array<u32>)
    requires row < |pairs| < 0x1_0000_0000 && pairs[row].0 < |start| && pairs[row].1 == row
    requires rows.Length == CountBelow(pairs, |start|) && rows != filled
    requires Filling(pairs, |start|, row, rows[..], start, filled[..])
    modifies rows, filled
    ensures Filling(pairs, |start|, row + 1, rows[..], start, filled[..])
  {
    ghost var rowsBefore, filledBefore := rows[..], filled[..];
    FillNext(pairs, |start|, row, rows[..], start, filled[..]);
    var owner := pairs[row].0;
    var at := (start[owner] as int) + filled[owner];
    if at < rows.Length {
      rows[at] := row;
      filled[owner] := filled[owner] + 1;
    }
    assert rows[..] == rowsBefore[at := row] && filled[..] == filledBefore[owner := filledBefore[owner] + 1];
  }

  method Group(owners: seq<nat>, buckets: nat) returns (grouped: Rows)
    requires |owners| <= NO_INDEX
    ensures forall owner :: 0 <= owner ==>
              RowsOf(grouped, owner) == if owner < buckets then RowsOwnedBy(owners, owner) else []
  {
    var pairs := Numbered(owners);
    var count := CountKeys(buckets, pairs);
    var start, running := Starts(pairs, buckets, count);
    var counts := count[..];
    var filled := new u32[buckets](_ => 0);
    var rows := new u32[running](_ => 0);
    FillStarts(pairs, buckets, rows[..], start, filled[..]);
    for row := 0 to |owners|
      invariant Filling(pairs, buckets, row, rows[..], start, filled[..])
    {
      var owner := owners[row];
      if owner < |start| {
        PlaceRow(pairs, row, rows, start, filled);
      } else {
        FillSkips(pairs, buckets, row, rows[..], start, filled[..]);
      }
    }
    grouped := Rows(start, counts, rows[..]);
    forall owner | 0 <= owner
      ensures RowsOf(grouped, owner) == if owner < buckets then RowsOwnedBy(owners, owner) else []
    {
      FilledIsGrouped(owners, buckets, rows[..], start, counts, filled[..], owner);
    }
  }
}
