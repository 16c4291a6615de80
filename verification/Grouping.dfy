/** The counting sort into compressed sparse rows that every index is built with. */
module Grouping {
  import opened Basics

  /** The values paired with `key`, in the order they come. */
  function Bucket<T>(pairs: seq<(nat, T)>, key: nat): seq<T> {
    if pairs == [] then []
    else
      var last := pairs[|pairs| - 1];
      Bucket(pairs[..|pairs| - 1], key) + (if last.0 == key then [last.1] else [])
  }

  /** How many pairs have a key below `bound`. */
  function CountBelow<T>(pairs: seq<(nat, T)>, bound: nat): (r: nat)
    ensures r <= |pairs|
  {
    if pairs == [] then 0
    else CountBelow(pairs[..|pairs| - 1], bound) + (if pairs[|pairs| - 1].0 < bound then 1 else 0)
  }

  lemma {:induction false} CountBelowNext<T>(pairs: seq<(nat, T)>, bound: nat)
    ensures CountBelow(pairs, bound + 1) == CountBelow(pairs, bound) + |Bucket(pairs, bound)|
  {
    if pairs != [] {
      CountBelowNext(pairs[..|pairs| - 1], bound);
    }
  }

  lemma {:induction false} CountBelowZero<T>(pairs: seq<(nat, T)>)
    ensures CountBelow(pairs, 0) == 0
  {
    if pairs != [] {
      CountBelowZero(pairs[..|pairs| - 1]);
    }
  }

  lemma {:induction false} CountBelowMonotone<T>(pairs: seq<(nat, T)>, low: nat, high: nat)
    requires low <= high
    ensures CountBelow(pairs, low) <= CountBelow(pairs, high)
  {
    if pairs != [] {
      CountBelowMonotone(pairs[..|pairs| - 1], low, high);
    }
  }

  lemma {:induction false} CountBelowAll<T>(pairs: seq<(nat, T)>, bound: nat)
    requires forall i :: 0 <= i < |pairs| ==> pairs[i].0 < bound
    ensures CountBelow(pairs, bound) == |pairs|
  {
    if pairs != [] {
      CountBelowAll(pairs[..|pairs| - 1], bound);
    }
  }

  lemma BucketOfNext<T>(pairs: seq<(nat, T)>, i: nat, key: nat)
    requires i < |pairs|
    ensures Bucket(pairs[..i + 1], key)
         == Bucket(pairs[..i], key) + (if pairs[i].0 == key then [pairs[i].1] else [])
  {
    assert pairs[..i + 1][..i] == pairs[..i];
  }

  lemma {:induction false} BucketOfPrefix<T>(pairs: seq<(nat, T)>, i: nat, key: nat)
    requires i <= |pairs|
    ensures |Bucket(pairs[..i], key)| <= |Bucket(pairs, key)|
    decreases |pairs| - i
  {
    if i == |pairs| {
      assert pairs[..i] == pairs;
    } else {
      BucketOfNext(pairs, i, key);
      BucketOfPrefix(pairs, i + 1, key);
    }
  }

  /** Bucket `key` of a sort that is `done` pairs into placing values from `pairs`. */
  ghost predicate Placed<T>(pairs: seq<(nat, T)>, done: nat, grouped: seq<T>, cursor: nat, key: nat)
    requires done <= |pairs|
  {
    var start := CountBelow(pairs, key);
    && cursor == start + |Bucket(pairs[..done], key)|
    && cursor <= |grouped|
    && grouped[start..cursor] == Bucket(pairs[..done], key)
  }

  lemma RoomFor<T>(pairs: seq<(nat, T)>, i: nat, buckets: nat)
    requires i < |pairs| && pairs[i].0 < buckets
    ensures var key := pairs[i].0;
            CountBelow(pairs, key) + |Bucket(pairs[..i], key)| < CountBelow(pairs, key + 1)
            && CountBelow(pairs, key + 1) <= CountBelow(pairs, buckets)
  {
    var key := pairs[i].0;
    BucketOfNext(pairs, i, key);
    BucketOfPrefix(pairs, i + 1, key);
    CountBelowNext(pairs, key);
    CountBelowMonotone(pairs, key + 1, buckets);
  }

  /** Placing the next value at its own cursor leaves every other bucket as it was. */
  lemma PlaceNext<T>(pairs: seq<(nat, T)>, i: nat, grouped: seq<T>, cursor: nat, key: nat, slot: nat, cursor': nat)
    requires i < |pairs| && Placed(pairs, i, grouped, cursor, key)
    requires var placed := pairs[i].0;
             && slot == CountBelow(pairs, placed) + |Bucket(pairs[..i], placed)|
             && slot < |grouped|
             && slot < CountBelow(pairs, placed + 1)
             && cursor' == (if key == placed then cursor + 1 else cursor)
    ensures Placed(pairs, i + 1, grouped[slot := pairs[i].1], cursor', key)
  {
    var placed := pairs[i].0;
    BucketOfNext(pairs, i, key);
    if key < placed {
      BucketOfPrefix(pairs, i, key);
      CountBelowNext(pairs, key);
      CountBelowMonotone(pairs, key + 1, placed);
    } else if placed < key {
      CountBelowMonotone(pairs, placed + 1, key);
    }
    var start := CountBelow(pairs, key);
    var after := grouped[slot := pairs[i].1];
    if key == placed {
      assert after[start..cursor] == grouped[start..cursor];
      assert after[start..cursor'] == after[start..cursor] + [pairs[i].1];
    } else {
      assert after[start..cursor'] == grouped[start..cursor];
    }
  }

  /** Bucket `key` sits between two consecutive starts. */
  ghost predicate Holds<T>(pairs: seq<(nat, T)>, start: seq<u32>, grouped: seq<T>, key: nat)
    requires key + 1 < |start|
  {
    && start[key] <= start[key + 1] <= |grouped|
    && grouped[start[key]..start[key + 1]] == Bucket(pairs, key)
  }

  /** Every bucket sits between consecutive starts, and together they are everything. */
  ghost predicate IsGrouping<T>(pairs: seq<(nat, T)>, buckets: nat, start: seq<u32>, grouped: seq<T>) {
    && |start| == buckets + 1
    && start[0] == 0 && start[buckets] == |grouped| == |pairs|
    && forall key :: 0 <= key < buckets ==> Holds(pairs, start, grouped, key)
  }

  /** The pairs sorted so far, seen through every cursor at once. */
  ghost predicate AllPlaced<T>(pairs: seq<(nat, T)>, buckets: nat, done: nat, grouped: seq<T>, cursors: seq<u32>)
    requires done <= |pairs|
  {
    && |cursors| >= buckets
    && forall key :: 0 <= key < buckets ==> Placed(pairs, done, grouped, cursors[key], key)
  }

  lemma PlaceNextEverywhere<T>(
    pairs: seq<(nat, T)>, buckets: nat, i: nat, grouped: seq<T>, cursors: seq<u32>,
    grouped': seq<T>, cursors': seq<u32>)
    requires i < |pairs| < 0x1_0000_0000 && pairs[i].0 < buckets && |grouped| == CountBelow(pairs, buckets)
    requires AllPlaced(pairs, buckets, i, grouped, cursors)
    requires |cursors'| == |cursors|
    requires forall key :: 0 <= key < buckets ==>
               cursors'[key] == if key == pairs[i].0 then cursors[key] as int + 1 else cursors[key]
    requires cursors[pairs[i].0] < |grouped| && grouped' == grouped[cursors[pairs[i].0] := pairs[i].1]
    ensures AllPlaced(pairs, buckets, i + 1, grouped', cursors')
  {
    RoomFor(pairs, i, buckets);
    assert Placed(pairs, i, grouped, cursors[pairs[i].0], pairs[i].0);
    forall key | 0 <= key < buckets
      ensures Placed(pairs, i + 1, grouped', cursors'[key], key)
    {
      PlaceNext(pairs, i, grouped, cursors[key], key, cursors[pairs[i].0], cursors'[key]);
    }
  }

  lemma NextSlotIsFree<T>(pairs: seq<(nat, T)>, buckets: nat, i: nat, grouped: seq<T>, cursors: seq<u32>)
    requires i < |pairs| && pairs[i].0 < buckets && |grouped| == CountBelow(pairs, buckets)
    requires AllPlaced(pairs, buckets, i, grouped, cursors)
    ensures cursors[pairs[i].0] < |grouped|
  {
    RoomFor(pairs, i, buckets);
    assert Placed(pairs, i, grouped, cursors[pairs[i].0], pairs[i].0);
  }

  lemma NothingPlacedYet<T>(pairs: seq<(nat, T)>, buckets: nat, grouped: seq<T>, starts: seq<u32>)
    requires |starts| >= buckets && |grouped| == CountBelow(pairs, buckets)
    requires forall key :: 0 <= key < buckets ==> starts[key] == CountBelow(pairs, key)
    ensures AllPlaced(pairs, buckets, 0, grouped, starts)
  {
    assert pairs[..0] == [];
    forall key | 0 <= key < buckets
      ensures Placed(pairs, 0, grouped, starts[key], key)
    {
      CountBelowMonotone(pairs, key, buckets);
    }
  }

  lemma EverythingPlaced<T>(pairs: seq<(nat, T)>, buckets: nat, grouped: seq<T>, cursors: seq<u32>, starts: seq<u32>)
    requires |starts| == buckets + 1 && |grouped| == CountBelow(pairs, buckets)
    requires forall key :: 0 <= key <= buckets ==> starts[key] == CountBelow(pairs, key)
    requires AllPlaced(pairs, buckets, |pairs|, grouped, cursors)
    ensures forall key :: 0 <= key < buckets ==> Holds(pairs, starts, grouped, key)
  {
    assert pairs[..|pairs|] == pairs;
    forall key | 0 <= key < buckets
      ensures Holds(pairs, starts, grouped, key)
    {
      assert Placed(pairs, |pairs|, grouped, cursors[key], key);
      CountBelowNext(pairs, key);
    }
  }

  lemma CountNext<T>(pairs: seq<(nat, T)>, i: nat)
    requires i < |pairs|
    ensures forall key: nat :: |Bucket(pairs[..i + 1], key)|
                            == |Bucket(pairs[..i], key)| + (if pairs[i].0 == key then 1 else 0)
  {
    forall key: nat
      ensures |Bucket(pairs[..i + 1], key)| == |Bucket(pairs[..i], key)| + (if pairs[i].0 == key then 1 else 0)
    {
      BucketOfNext(pairs, i, key);
    }
  }

  /** How many pairs fall in each bucket; a key past the last bucket is counted nowhere. */
  method CountKeys<T>(buckets: nat, pairs: seq<(nat, T)>) returns (counts: array<u32>)
    requires |pairs| < 0x1_0000_0000
    ensures fresh(counts) && counts.Length == buckets
    ensures forall key :: 0 <= key < buckets ==> counts[key] == |Bucket(pairs, key)|
  {
    counts := new u32[buckets](_ => 0);
    for i := 0 to |pairs|
      invariant forall key :: 0 <= key < buckets ==> counts[key] == |Bucket(pairs[..i], key)| <= i
    {
      CountNext(pairs, i);
      if pairs[i].0 < buckets {
        counts[pairs[i].0] := counts[pairs[i].0] + 1;
      }
    }
    assert pairs[..|pairs|] == pairs;
  }

  method CountingSort<T(0)>(buckets: nat, pairs: seq<(nat, T)>, absent: T)
    returns (start: seq<u32>, grouped: seq<T>)
    requires |pairs| < 0x1_0000_0000
    requires forall i :: 0 <= i < |pairs| ==> pairs[i].0 < buckets
    ensures IsGrouping(pairs, buckets, start, grouped)
  {
    var counts := CountKeys(buckets, pairs);
    var starts := new u32[buckets + 1](_ => 0);
    CountBelowZero(pairs);
    for index := 0 to buckets
      modifies starts
      invariant forall key :: 0 <= key <= index ==> starts[key] == CountBelow(pairs, key)
    {
      CountBelowNext(pairs, index);
      assert (starts[index] as int) + counts[index] == CountBelow(pairs, index + 1);
      starts[index + 1] := starts[index] + counts[index];
    }
    start := starts[..];
    CountBelowAll(pairs, buckets);
    grouped := Fill(buckets, pairs, absent, start);
    EverythingPlacedIsGrouping(pairs, buckets, grouped, start);
  }

  lemma EverythingPlacedIsGrouping<T>(pairs: seq<(nat, T)>, buckets: nat, grouped: seq<T>, start: seq<u32>)
    requires |start| == buckets + 1 && |grouped| == CountBelow(pairs, buckets) == |pairs|
    requires forall key :: 0 <= key <= buckets ==> start[key] == CountBelow(pairs, key)
    requires forall key :: 0 <= key < buckets ==> Holds(pairs, start, grouped, key)
    ensures IsGrouping(pairs, buckets, start, grouped)
  {
    CountBelowZero(pairs);
  }

  /** Places every value at its bucket's cursor, which starts where the bucket does. */
  method Fill<T(0)>(buckets: nat, pairs: seq<(nat, T)>, absent: T, start: seq<u32>) returns (grouped: seq<T>)
    requires |pairs| < 0x1_0000_0000
    requires forall i :: 0 <= i < |pairs| ==> pairs[i].0 < buckets
    requires |start| == buckets + 1
    requires forall key :: 0 <= key <= buckets ==> start[key] == CountBelow(pairs, key)
    ensures |grouped| == CountBelow(pairs, buckets)
    ensures forall key :: 0 <= key < buckets ==> Holds(pairs, start, grouped, key)
  {
    var cursor := new u32[buckets + 1](i requires 0 <= i < |start| => start[i]);
    var rows := new T[start[buckets]](_ => absent);
    NothingPlacedYet(pairs, buckets, rows[..], cursor[..]);
    for i := 0 to |pairs|
      invariant AllPlaced(pairs, buckets, i, rows[..], cursor[..])
    {
      var key := pairs[i].0;
      ghost var rowsBefore, cursorBefore := rows[..], cursor[..];
      NextSlotIsFree(pairs, buckets, i, rows[..], cursor[..]);
      rows[cursor[key]] := pairs[i].1;
      cursor[key] := cursor[key] + 1;
      PlaceNextEverywhere(pairs, buckets, i, rowsBefore, cursorBefore, rows[..], cursor[..]);
    }
    EverythingPlaced(pairs, buckets, rows[..], cursor[..], start);
    grouped := rows[..];
  }
}
