/** What of the outcome depends on the order repairs arrive in. */
module RepairOrder {
  import opened Basics
  import opened Repair

  // ---- One sorted list per arrival order ----------------------------------------------------------

  /** An order the code could have sorted the repairs into; there is exactly one. */
  ghost predicate Sorts(repairs: seq<Repair>, order: seq<nat>) {
    StablySorted(repairs, order, |repairs|) && forall i :: 0 <= i < |order| ==> order[i] < |repairs|
  }

  /** A result of applying the repairs as they arrived. */
  ghost predicate Gives(source: seq<u8>, repairs: seq<Repair>, result: Result<seq<u8>, RepairError>) {
    exists order :: Sorts(repairs, order) && IsApplied(source, repairs, order, result)
  }

  /** Where a repair that arrived before a whole sorted list goes in it: before the first not below it. */
  function Place(sorted: seq<Repair>, repair: Repair): (at: nat)
    ensures at <= |sorted|
    ensures forall i :: 0 <= i < at ==> KeyBelow(sorted[i], repair)
    ensures at < |sorted| ==> !KeyBelow(sorted[at], repair)
  {
    if sorted == [] || !KeyBelow(sorted[0], repair) then 0 else 1 + Place(sorted[1..], repair)
  }

  function Insert(sorted: seq<Repair>, repair: Repair): seq<Repair> {
    var at := Place(sorted, repair);
    sorted[..at] + [repair] + sorted[at..]
  }

  /** The repairs sorted by span, equal spans as they arrived. */
  function StableSort(repairs: seq<Repair>): seq<Repair> {
    if repairs == [] then [] else Insert(StableSort(repairs[1..]), repairs[0])
  }

  function Shifted(order: seq<nat>): (r: seq<nat>)
    ensures |r| == |order| && forall i :: 0 <= i < |r| ==> r[i] == order[i] + 1
  {
    seq(|order|, i requires 0 <= i < |order| => order[i] + 1)
  }

  ghost predicate AllPrecede(repairs: seq<Repair>, order: seq<nat>) {
    forall a, b :: 0 <= a < b < |order| ==> Precedes(repairs, order[a], order[b])
  }

  lemma ShiftedPrecede(repairs: seq<Repair>, order: seq<nat>)
    requires repairs != [] && AllPrecede(repairs[1..], order)
    ensures AllPrecede(repairs, Shifted(order))
  {
    forall a, b | 0 <= a < b < |order|
      ensures Precedes(repairs, Shifted(order)[a], Shifted(order)[b])
    {
      assert Precedes(repairs[1..], order[a], order[b]);
    }
  }

  lemma InsertedPrecedes(repairs: seq<Repair>, order: seq<nat>, at: nat)
    requires repairs != [] && at <= |order| && AllPrecede(repairs, order)
    requires forall i :: 0 <= i < |order| ==> 0 < order[i] < |repairs|
    requires forall i :: 0 <= i < at ==> KeyBelow(repairs[order[i]], repairs[0])
    requires at < |order| ==> !KeyBelow(repairs[order[at]], repairs[0])
    ensures AllPrecede(repairs, order[..at] + [0] + order[at..])
  {
    var longer := order[..at] + [0] + order[at..];
    forall a, b | 0 <= a < b < |longer|
      ensures Precedes(repairs, longer[a], longer[b])
    {
      if a == at {
        assert longer[b] == order[b - 1];
        assert b - 1 > at ==> Precedes(repairs, order[at], order[b - 1]);
      } else if b == at {
        assert longer[a] == order[a];
      } else {
        var i, j := if a < at then a else a - 1, if b < at then b else b - 1;
        assert Precedes(repairs, order[i], order[j]);
      }
    }
  }

  lemma ShiftedNamesTheSame(repairs: seq<Repair>, rest: seq<nat>)
    requires repairs != [] && Sorts(repairs[1..], rest)
    ensures var shifted := Shifted(rest);
            && (forall i :: 0 <= i < |rest| ==>
                  0 < shifted[i] < |repairs| && Ordered(repairs[1..], rest)[i] == repairs[shifted[i]])
            && AllPrecede(repairs, shifted)
  {
    ShiftedPrecede(repairs, rest);
  }

  /** Sorting the repairs that came later, then putting the first one where it goes. */
  lemma SortedWithFirst(repairs: seq<Repair>, rest: seq<nat>, at: nat)
    requires repairs != [] && Sorts(repairs[1..], rest)
    requires at == Place(Ordered(repairs[1..], rest), repairs[0])
    ensures Sorts(repairs, Shifted(rest)[..at] + [0] + Shifted(rest)[at..])
    ensures Ordered(repairs, Shifted(rest)[..at] + [0] + Shifted(rest)[at..])
         == Insert(Ordered(repairs[1..], rest), repairs[0])
  {
    var shifted, sorted := Shifted(rest), Ordered(repairs[1..], rest);
    ShiftedNamesTheSame(repairs, rest);
    InsertedPrecedes(repairs, shifted, at);
    InsertedHasAllRows(rest, |repairs|, at, shifted[..at] + [0] + shifted[at..]);
    OrderedInserted(repairs, shifted, sorted, at);
  }

  lemma {:induction false} SortedOrderExists(repairs: seq<Repair>) returns (order: seq<nat>)
    ensures Sorts(repairs, order) && Ordered(repairs, order) == StableSort(repairs)
    decreases |repairs|
  {
    if repairs == [] {
      order := [];
    } else {
      var rest := SortedOrderExists(repairs[1..]);
      var at := Place(StableSort(repairs[1..]), repairs[0]);
      SortedWithFirst(repairs, rest, at);
      order := Shifted(rest)[..at] + [0] + Shifted(rest)[at..];
    }
  }

  lemma OrderedInserted(repairs: seq<Repair>, order: seq<nat>, sorted: seq<Repair>, at: nat)
    requires repairs != [] && |order| == |sorted| && at <= |order|
    requires forall i :: 0 <= i < |order| ==> order[i] < |repairs| && sorted[i] == repairs[order[i]]
    ensures forall i :: 0 <= i <= |order| ==> (order[..at] + [0] + order[at..])[i] < |repairs|
    ensures Ordered(repairs, order[..at] + [0] + order[at..]) == sorted[..at] + [repairs[0]] + sorted[at..]
  {
    var longer := order[..at] + [0] + order[at..];
    assert forall i :: 0 <= i < |longer| ==>
        longer[i] == if i < at then order[i] else if i == at then 0 else order[i - 1];
  }

  lemma InsertedHasAllRows(rest: seq<nat>, rows: nat, at: nat, order: seq<nat>)
    requires rows > 0 && at <= |rest| && order == Shifted(rest)[..at] + [0] + Shifted(rest)[at..]
    requires forall row: nat :: row in rest <==> row < rows - 1
    ensures forall row: nat :: row in order <==> row < rows
  {
    var shifted := Shifted(rest);
    assert shifted == shifted[..at] + shifted[at..];
    forall row: nat
      ensures row in order <==> row < rows
    {
      assert row in order <==> row == 0 || row in shifted;
      if 0 < row < rows {
        assert row - 1 in rest;
        var i :| 0 <= i < |rest| && rest[i] == row - 1;
        assert shifted[i] == row;
      }
      if row in shifted {
        var i :| 0 <= i < |shifted| && shifted[i] == row;
        assert rest[i] in rest;
      }
    }
  }

  lemma {:induction false} SortedOrdersAgree(repairs: seq<Repair>, one: seq<nat>, other: seq<nat>)
    requires AllPrecede(repairs, one) && AllPrecede(repairs, other)
    requires forall row: nat :: row in one <==> row in other
    ensures one == other
    decreases |one|
  {
    assert other != [] ==> other[0] in other;
    if one != [] {
      assert one[0] in other;
      assert other[0] in one;
      assert one[0] == other[0];
      assert one == [one[0]] + one[1..] && other == [other[0]] + other[1..];
      forall row: nat
        ensures row in one[1..] <==> row in other[1..]
      {
        NotAgain(repairs, one, row);
        NotAgain(repairs, other, row);
      }
      SortedOrdersAgree(repairs, one[1..], other[1..]);
    }
  }

  lemma NotAgain(repairs: seq<Repair>, order: seq<nat>, row: nat)
    requires order != [] && AllPrecede(repairs, order)
    ensures row in order[1..] <==> row in order && row != order[0]
  {
    assert order == [order[0]] + order[1..];
    if row in order[1..] {
      var i :| 0 <= i < |order[1..]| && order[1..][i] == row;
      assert Precedes(repairs, order[0], order[i + 1]);
    }
  }

  /** Every order the code could have sorted into gives this one list. */
  lemma SortedIsStableSort(repairs: seq<Repair>, order: seq<nat>)
    requires Sorts(repairs, order)
    ensures Ordered(repairs, order) == StableSort(repairs)
  {
    var other := SortedOrderExists(repairs);
    SortedOrdersAgree(repairs, order, other);
  }

  // ---- Success ------------------------------------------------------------------------------------

  lemma {:induction false} InsertKeepsRepairs(sorted: seq<Repair>, repair: Repair)
    ensures multiset(Insert(sorted, repair)) == multiset(sorted) + multiset{repair}
  {
    var at := Place(sorted, repair);
    assert sorted == sorted[..at] + sorted[at..];
  }

  lemma {:induction false} StableSortKeepsRepairs(repairs: seq<Repair>)
    ensures multiset(StableSort(repairs)) == multiset(repairs)
  {
    if repairs != [] {
      StableSortKeepsRepairs(repairs[1..]);
      InsertKeepsRepairs(StableSort(repairs[1..]), repairs[0]);
      assert repairs == [repairs[0]] + repairs[1..];
    }
  }

  lemma InEither(repairs: seq<Repair>, others: seq<Repair>)
    requires multiset(repairs) == multiset(others)
    ensures forall repair :: repair in repairs <==> repair in others
  {
    assert forall repair :: repair in repairs <==> repair in multiset(repairs);
    assert forall repair :: repair in others <==> repair in multiset(others);
  }

  lemma SameRanges(source: seq<u8>, repairs: seq<Repair>, others: seq<Repair>)
    requires multiset(repairs) == multiset(others)
    ensures AllInRange(source, repairs) ==> AllInRange(source, others)
  {
    InEither(repairs, others);
    forall i | 0 <= i < |others|
      ensures AllInRange(source, repairs) ==> InRange(source, others[i])
    {
      assert others[i] in repairs;
    }
  }

  lemma TwiceMeansTwoPlaces(repairs: seq<Repair>, repair: Repair) returns (i: nat, j: nat)
    requires multiset(repairs)[repair] >= 2
    ensures i < j < |repairs| && repairs[i] == repairs[j] == repair
  {
    assert repair in multiset(repairs);
    var a :| 0 <= a < |repairs| && repairs[a] == repair;
    var rest := repairs[..a] + repairs[a + 1..];
    assert repairs == repairs[..a] + [repair] + repairs[a + 1..];
    assert multiset(repairs) == multiset(rest) + multiset{repair};
    assert repair in multiset(rest);
    var b :| 0 <= b < |rest| && rest[b] == repair;
    if b < a {
      i, j := b, a;
    } else {
      i, j := a, b + 1;
    }
  }

  lemma SameApartness(repairs: seq<Repair>, others: seq<Repair>)
    requires multiset(repairs) == multiset(others) && AllApart(repairs)
    ensures AllApart(others)
  {
    InEither(repairs, others);
    forall i, j | 0 <= i < j < |others|
      ensures Apart(others[i], others[j])
    {
      if others[i] == others[j] {
        TwiceInMultiset(others, i, j);
        var a, b := TwiceMeansTwoPlaces(repairs, others[i]);
        assert Apart(repairs[a], repairs[b]);
      } else {
        assert others[i] in repairs && others[j] in repairs;
        var a :| 0 <= a < |repairs| && repairs[a] == others[i];
        var b :| 0 <= b < |repairs| && repairs[b] == others[j];
        assert a < b || b < a;
      }
    }
  }

  lemma TwiceInMultiset(repairs: seq<Repair>, i: nat, j: nat)
    requires i < j < |repairs| && repairs[i] == repairs[j]
    ensures multiset(repairs)[repairs[i]] >= 2
  {
    assert repairs == repairs[..i] + [repairs[i]] + repairs[i + 1..j] + [repairs[j]] + repairs[j + 1..];
  }

  /** A call succeeds in one arrival order exactly when it does in every other. */
  lemma SuccessIsOrderFree(
    source: seq<u8>, repairs: seq<Repair>, result: Result<seq<u8>, RepairError>,
    others: seq<Repair>, otherResult: Result<seq<u8>, RepairError>)
    requires Gives(source, repairs, result) && Gives(source, others, otherResult)
    requires multiset(repairs) == multiset(others)
    ensures result.Ok? <==> otherResult.Ok?
  {
    SameRanges(source, repairs, others);
    SameRanges(source, others, repairs);
    if AllApart(repairs) {
      SameApartness(repairs, others);
    }
    if AllApart(others) {
      SameApartness(others, repairs);
    }
  }

  // ---- What is written ----------------------------------------------------------------------------

  /** All a repair adds: what an insertion writes. */
  function TextOf(repair: Repair): seq<u8> {
    repair.prefix + repair.suffix
  }

  predicate IsSameSpan(a: Repair, b: Repair) {
    a.spanStart == b.spanStart && a.spanEnd == b.spanEnd
  }

  predicate Commute(a: Repair, b: Repair) {
    TextOf(a) + TextOf(b) == TextOf(b) + TextOf(a)
  }

  /** Any two repairs of one span add the same in either order. */
  ghost predicate AllCommute(repairs: seq<Repair>) {
    forall a, b :: a in repairs && b in repairs && IsSameSpan(a, b) ==> Commute(a, b)
  }

  lemma BetweenTellsApart(before: seq<u8>, one: seq<u8>, other: seq<u8>, after: seq<u8>)
    requires |one| == |other|
    ensures before + one + after == before + other + after <==> one == other
  {
    assert (before + one + after)[|before|..|before| + |one|] == one;
    assert (before + other + after)[|before|..|before| + |other|] == other;
  }

  lemma SpliceTellsApart(one: seq<u8>, other: seq<u8>, repair: Repair)
    requires |one| == |other| && InRange(one, repair)
    ensures Splice(one, repair) == Splice(other, repair) <==> one == other
  {
    if Splice(one, repair) == Splice(other, repair) {
      SplicedParts(one, repair);
      SplicedParts(other, repair);
      InParts(one, repair.spanStart, repair.spanEnd);
      InParts(other, repair.spanStart, repair.spanEnd);
    }
  }

  lemma SplicedParts(source: seq<u8>, repair: Repair)
    requires InRange(source, repair)
    ensures var out := Splice(source, repair);
            var inside := repair.spanStart + |repair.prefix|;
            var end := repair.spanEnd + |repair.prefix|;
            && end + |repair.suffix| <= |out|
            && out[..repair.spanStart] == source[..repair.spanStart]
            && out[inside..end] == source[repair.spanStart..repair.spanEnd]
            && out[end + |repair.suffix|..] == source[repair.spanEnd..]
  {
  }

  lemma InParts(source: seq<u8>, from: nat, to: nat)
    requires from <= to <= |source|
    ensures source == source[..from] + source[from..to] + source[to..]
  {
  }

  /** The same repairs written into two sources of one length tell the sources apart. */
  lemma {:induction false} SpliceEachTellsApart(one: seq<u8>, other: seq<u8>, repairs: seq<Repair>)
    requires |one| == |other| && InLine(one, repairs)
    ensures InLine(other, repairs)
    ensures SpliceEach(one, repairs) == SpliceEach(other, repairs) <==> one == other
    decreases |repairs|
  {
    if repairs != [] {
      var last := repairs[|repairs| - 1];
      EarlierStayInLine(one, repairs);
      EarlierStayInLine(other, repairs);
      SpliceTellsApart(one, other, last);
      SpliceEachTellsApart(Splice(one, last), Splice(other, last), repairs[..|repairs| - 1]);
    }
  }

  lemma TwoInsertions(source: seq<u8>, first: Repair, second: Repair)
    requires InRange(source, first) && IsSameSpan(first, second) && first.spanStart == first.spanEnd
    ensures var at := first.spanStart;
            InRange(Splice(source, second), first)
            && Splice(Splice(source, second), first)
               == source[..at] + (TextOf(first) + TextOf(second)) + source[at..]
  {
    var at := first.spanStart;
    InsertionWrites(source, second);
    var once := Splice(source, second);
    assert once[..at] == source[..at] && once[at..] == TextOf(second) + source[at..];
    InsertionWrites(once, first);
    assert source[..at] + TextOf(first) + (TextOf(second) + source[at..])
        == source[..at] + (TextOf(first) + TextOf(second)) + source[at..];
  }

  lemma InsertionWrites(source: seq<u8>, repair: Repair)
    requires InRange(source, repair) && repair.spanStart == repair.spanEnd
    ensures Splice(source, repair) == source[..repair.spanStart] + TextOf(repair) + source[repair.spanStart..]
  {
    assert source[repair.spanStart..repair.spanEnd] == [];
  }

  lemma SpliceLast(source: seq<u8>, repairs: seq<Repair>, last: Repair)
    requires InLine(source, repairs + [last])
    ensures InRange(source, last) && InLine(Splice(source, last), repairs)
    ensures SpliceEach(source, repairs + [last]) == SpliceEach(Splice(source, last), repairs)
  {
    EarlierStayInLine(source, repairs + [last]);
    assert (repairs + [last])[..|repairs|] == repairs;
  }

  lemma SwapStaysInLine(source: seq<u8>, before: seq<Repair>, a: Repair, b: Repair, after: seq<Repair>)
    requires InLine(source, before + [a, b] + after) && IsSameSpan(a, b)
    ensures InLine(source, before + [b, a] + after) && a.spanStart == a.spanEnd && InRange(source, a)
  {
    var list, swapped := before + [a, b] + after, before + [b, a] + after;
    var at := |before|;
    assert list[at] == a && list[at + 1] == b;
    forall i | 0 <= i < |swapped|
      ensures swapped[i].spanStart == list[i].spanStart && swapped[i].spanEnd == list[i].spanEnd
    {
    }
  }

  lemma SwapLastTwo(source: seq<u8>, before: seq<Repair>, a: Repair, b: Repair)
    requires InLine(source, before + [a, b]) && InLine(source, before + [b, a])
    requires IsSameSpan(a, b) && a.spanStart == a.spanEnd && InRange(source, a)
    ensures SpliceEach(source, before + [a, b]) == SpliceEach(source, before + [b, a]) <==> Commute(a, b)
  {
    assert before + [a, b] == before + [a] + [b] && before + [b, a] == before + [b] + [a];
    SpliceLast(source, before + [a], b);
    SpliceLast(Splice(source, b), before, a);
    SpliceLast(source, before + [b], a);
    SpliceLast(Splice(source, a), before, b);
    TwoInsertions(source, a, b);
    TwoInsertions(source, b, a);
    SpliceEachTellsApart(Splice(Splice(source, b), a), Splice(Splice(source, a), b), before);
    BetweenTellsApart(
      source[..a.spanStart], TextOf(a) + TextOf(b), TextOf(b) + TextOf(a), source[a.spanStart..]);
  }

  /** Swapping two neighbours of one span leaves what is written alone exactly when their texts commute. */
  lemma {:induction false} SwapNeighbours(
    source: seq<u8>, before: seq<Repair>, a: Repair, b: Repair, after: seq<Repair>)
    requires InLine(source, before + [a, b] + after) && IsSameSpan(a, b)
    ensures InLine(source, before + [b, a] + after)
    ensures SpliceEach(source, before + [a, b] + after) == SpliceEach(source, before + [b, a] + after)
            <==> Commute(a, b)
    decreases |after|
  {
    SwapStaysInLine(source, before, a, b, after);
    if after == [] {
      assert before + [a, b] + [] == before + [a, b] && before + [b, a] + [] == before + [b, a];
      SwapLastTwo(source, before, a, b);
    } else {
      var shorter, last := after[..|after| - 1], after[|after| - 1];
      assert before + [a, b] + after == before + [a, b] + shorter + [last];
      assert before + [b, a] + after == before + [b, a] + shorter + [last];
      SpliceLast(source, before + [a, b] + shorter, last);
      SpliceLast(source, before + [b, a] + shorter, last);
      SwapNeighbours(Splice(source, last), before, a, b, shorter);
    }
  }

  /** A repair followed only by ones of its span can be moved behind them. */
  lemma {:induction false} MoveToEnd(source: seq<u8>, repairs: seq<Repair>, k: nat) returns (moved: seq<Repair>)
    requires InLine(source, repairs) && k < |repairs| && AllCommute(repairs)
    requires forall i :: k < i < |repairs| ==> IsSameSpan(repairs[k], repairs[i])
    ensures InLine(source, moved + [repairs[k]]) && multiset(moved + [repairs[k]]) == multiset(repairs)
    ensures SpliceEach(source, moved + [repairs[k]]) == SpliceEach(source, repairs)
    decreases |repairs| - k
  {
    if k + 1 == |repairs| {
      moved := repairs[..k];
      assert repairs == repairs[..k] + [repairs[k]];
    } else {
      var swapped := MoveOneOn(source, repairs, k);
      moved := MoveToEnd(source, swapped, k + 1);
    }
  }

  lemma MoveOneOn(source: seq<u8>, repairs: seq<Repair>, k: nat) returns (swapped: seq<Repair>)
    requires InLine(source, repairs) && k + 1 < |repairs| && AllCommute(repairs)
    requires IsSameSpan(repairs[k], repairs[k + 1])
    ensures InLine(source, swapped) && multiset(swapped) == multiset(repairs) && AllCommute(swapped)
    ensures |swapped| == |repairs| && swapped[k + 1] == repairs[k]
    ensures forall i :: k + 1 < i < |repairs| ==> swapped[i] == repairs[i]
    ensures SpliceEach(source, swapped) == SpliceEach(source, repairs)
  {
    var before, a, b, after := repairs[..k], repairs[k], repairs[k + 1], repairs[k + 2..];
    SplitAtTwo(repairs, k);
    assert a in repairs && b in repairs;
    SwapNeighbours(source, before, a, b, after);
    swapped := before + [b, a] + after;
    SwappedIsSame(before, a, b, after);
    SwappedAt(repairs, k);
    SameCommute(repairs, swapped);
  }

  lemma SplitAtTwo(repairs: seq<Repair>, k: nat)
    requires k + 1 < |repairs|
    ensures repairs == repairs[..k] + [repairs[k], repairs[k + 1]] + repairs[k + 2..]
  {
  }

  lemma SwappedAt(repairs: seq<Repair>, k: nat)
    requires k + 1 < |repairs|
    ensures var swapped := repairs[..k] + [repairs[k + 1], repairs[k]] + repairs[k + 2..];
            && |swapped| == |repairs| && swapped[k + 1] == repairs[k]
            && forall i :: k + 1 < i < |repairs| ==> swapped[i] == repairs[i]
  {
  }

  lemma SwappedIsSame(before: seq<Repair>, a: Repair, b: Repair, after: seq<Repair>)
    ensures multiset(before + [a, b] + after) == multiset(before + [b, a] + after)
  {
  }

  lemma LastCanMove(source: seq<u8>, repairs: seq<Repair>, others: seq<Repair>, k: nat)
    requires InLine(source, repairs) && InLine(source, others) && multiset(repairs) == multiset(others)
    requires others != [] && k < |repairs| && repairs[k] == others[|others| - 1]
    ensures forall i :: k < i < |repairs| ==> IsSameSpan(repairs[k], repairs[i])
  {
    InEither(repairs, others);
    var last := |others| - 1;
    forall i | k < i < |repairs|
      ensures IsSameSpan(repairs[k], repairs[i])
    {
      InLineEnds(source, repairs, k, i);
      assert repairs[i] in others;
      var j :| 0 <= j < |others| && others[j] == repairs[i];
      if j < last {
        InLineEnds(source, others, j, last);
      }
    }
  }

  lemma FewerCommute(repairs: seq<Repair>, last: Repair)
    requires AllCommute(repairs + [last])
    ensures AllCommute(repairs)
  {
    assert forall repair :: repair in repairs ==> repair in repairs + [last];
  }

  lemma WithoutLast(repairs: seq<Repair>, others: seq<Repair>, last: Repair)
    requires multiset(repairs + [last]) == multiset(others + [last])
    ensures multiset(repairs) == multiset(others)
  {
    assert multiset(repairs) == multiset(repairs + [last]) - multiset{last};
    assert multiset(others) == multiset(others + [last]) - multiset{last};
  }

  lemma AsManyRepairs(repairs: seq<Repair>, others: seq<Repair>)
    requires multiset(repairs) == multiset(others)
    ensures |repairs| == |others|
  {
    assert |repairs| == |multiset(repairs)| == |multiset(others)| == |others|;
  }

  lemma SameCommute(repairs: seq<Repair>, others: seq<Repair>)
    requires multiset(repairs) == multiset(others) && AllCommute(repairs)
    ensures AllCommute(others)
  {
    InEither(repairs, others);
  }

  /** The same repairs in two lists that both apply write the same, where those of one span commute. */
  lemma {:induction false} CommutingWriteTheSame(source: seq<u8>, repairs: seq<Repair>, others: seq<Repair>)
    requires InLine(source, repairs) && InLine(source, others) && multiset(repairs) == multiset(others)
    requires AllCommute(repairs)
    ensures SpliceEach(source, repairs) == SpliceEach(source, others)
    decreases |others|
  {
    AsManyRepairs(repairs, others);
    if others != [] {
      var shorter, last := others[..|others| - 1], others[|others| - 1];
      assert others == shorter + [last];
      InEither(repairs, others);
      assert last in repairs;
      var k :| 0 <= k < |repairs| && repairs[k] == last;
      LastCanMove(source, repairs, others, k);
      var moved := MoveToEnd(source, repairs, k);
      SameCommute(repairs, moved + [last]);
      FewerCommute(moved, last);
      WithoutLast(moved, shorter, last);
      SpliceLast(source, moved, last);
      SpliceLast(source, shorter, last);
      CommutingWriteTheSame(Splice(source, last), moved, shorter);
    }
  }

  // ---- When what is written does not depend on the order ------------------------------------------

  /** Whatever order the repairs arrive in, the outcome is the same. */
  ghost predicate IsOrderFree(source: seq<u8>, repairs: seq<Repair>) {
    forall others, result, otherResult ::
      multiset(others) == multiset(repairs) && Gives(source, repairs, result) && Gives(source, others, otherResult)
      ==> result == otherResult
  }

  lemma StableSortIsInLine(source: seq<u8>, repairs: seq<Repair>)
    requires AllInRange(source, repairs) && AllApart(repairs)
    ensures InLine(source, StableSort(repairs))
    ensures Gives(source, repairs, Ok(SpliceEach(source, StableSort(repairs))))
  {
    var order := SortedOrderExists(repairs);
    NeighboursSuffice(source, repairs, order);
    assert IsApplied(source, repairs, order, Ok(SpliceEach(source, StableSort(repairs))));
  }

  lemma GivenIsWritten(source: seq<u8>, repairs: seq<Repair>, result: Result<seq<u8>, RepairError>)
    requires AllInRange(source, repairs) && AllApart(repairs) && Gives(source, repairs, result)
    ensures InLine(source, StableSort(repairs)) && result == Ok(SpliceEach(source, StableSort(repairs)))
  {
    var order :| Sorts(repairs, order) && IsApplied(source, repairs, order, result);
    SortedIsStableSort(repairs, order);
    StableSortIsInLine(source, repairs);
  }

  lemma SortedAlike(source: seq<u8>, repairs: seq<Repair>, others: seq<Repair>)
    requires AllInRange(source, repairs) && AllApart(repairs) && multiset(repairs) == multiset(others)
    ensures AllInRange(source, others) && AllApart(others)
    ensures multiset(StableSort(repairs)) == multiset(repairs) == multiset(StableSort(others))
  {
    SameRanges(source, repairs, others);
    SameApartness(repairs, others);
    StableSortKeepsRepairs(repairs);
    StableSortKeepsRepairs(others);
  }

  /** Two repairs of one span that arrive first and second stay neighbours, in that order. */
  lemma FirstTwoStayNeighbours(sorted: seq<Repair>, a: Repair, b: Repair)
    requires IsSameSpan(a, b)
    ensures var at := Place(sorted, a);
            Insert(Insert(sorted, b), a) == sorted[..at] + [a, b] + sorted[at..] && Place(sorted, b) == at
  {
    var at := Place(sorted, a);
    PlaceIs(sorted, b, at);
    var once := Insert(sorted, b);
    assert once[at] == b && forall i :: 0 <= i < at ==> once[i] == sorted[i];
    PlaceIs(once, a, at);
    assert once[..at] == sorted[..at] && once[at..] == [b] + sorted[at..];
  }

  lemma {:induction false} PlaceIs(sorted: seq<Repair>, repair: Repair, at: nat)
    requires at <= |sorted| && forall i :: 0 <= i < at ==> KeyBelow(sorted[i], repair)
    requires at < |sorted| ==> !KeyBelow(sorted[at], repair)
    ensures Place(sorted, repair) == at
    decreases at
  {
    if at > 0 {
      PlaceIs(sorted[1..], repair, at - 1);
    }
  }

  lemma BroughtToFront(repairs: seq<Repair>, i: nat, j: nat) returns (rest: seq<Repair>)
    requires i < j < |repairs|
    ensures multiset([repairs[i], repairs[j]] + rest) == multiset(repairs)
    ensures multiset([repairs[j], repairs[i]] + rest) == multiset(repairs)
  {
    rest := repairs[..i] + repairs[i + 1..j] + repairs[j + 1..];
    assert repairs == repairs[..i] + [repairs[i]] + repairs[i + 1..j] + [repairs[j]] + repairs[j + 1..];
  }

  lemma FrontOrderIsFree(source: seq<u8>, repairs: seq<Repair>, front: seq<Repair>)
    requires AllInRange(source, repairs) && AllApart(repairs) && IsOrderFree(source, repairs)
    requires multiset(front) == multiset(repairs)
    ensures InLine(source, StableSort(repairs)) && InLine(source, StableSort(front))
    ensures SpliceEach(source, StableSort(front)) == SpliceEach(source, StableSort(repairs))
  {
    SortedAlike(source, repairs, front);
    StableSortIsInLine(source, repairs);
    StableSortIsInLine(source, front);
  }

  lemma OrderFreeCommute(source: seq<u8>, repairs: seq<Repair>, i: nat, j: nat)
    requires AllInRange(source, repairs) && AllApart(repairs) && IsOrderFree(source, repairs)
    requires i < j < |repairs| && IsSameSpan(repairs[i], repairs[j])
    ensures Commute(repairs[i], repairs[j])
  {
    var a, b := repairs[i], repairs[j];
    var rest := BroughtToFront(repairs, i, j);
    FrontOrderIsFree(source, repairs, [a, b] + rest);
    FrontOrderIsFree(source, repairs, [b, a] + rest);
    FrontTwoSorted(a, b, rest);
    FrontTwoSorted(b, a, rest);
    FrontTwoCommute(source, StableSort(rest), a, b);
  }

  lemma FrontTwoCommute(source: seq<u8>, sorted: seq<Repair>, a: Repair, b: Repair)
    requires IsSameSpan(a, b)
    requires InLine(source, Insert(Insert(sorted, b), a)) && InLine(source, Insert(Insert(sorted, a), b))
    requires SpliceEach(source, Insert(Insert(sorted, b), a)) == SpliceEach(source, Insert(Insert(sorted, a), b))
    ensures Commute(a, b)
  {
    var at := Place(sorted, a);
    FirstTwoStayNeighbours(sorted, a, b);
    FirstTwoStayNeighbours(sorted, b, a);
    SwapNeighbours(source, sorted[..at], a, b, sorted[at..]);
  }

  lemma FrontTwoSorted(a: Repair, b: Repair, rest: seq<Repair>)
    ensures StableSort([a, b] + rest) == Insert(Insert(StableSort(rest), b), a)
  {
    assert ([a, b] + rest)[1..] == [b] + rest && ([b] + rest)[1..] == rest;
  }

  /**
   * Repairs that apply write the same text in whatever order they arrive exactly when any two of one span, which are
   * then insertions at one point, add the same in either order.
   */
  lemma TextIsOrderFreeExactlyWhen(source: seq<u8>, repairs: seq<Repair>)
    requires AllInRange(source, repairs) && AllApart(repairs)
    ensures IsOrderFree(source, repairs) <==> AllCommute(repairs)
  {
    if AllCommute(repairs) {
      forall others, result, otherResult |
        multiset(others) == multiset(repairs) && Gives(source, repairs, result) && Gives(source, others, otherResult)
        ensures result == otherResult
      {
        CommutingOutcomesAgree(source, repairs, result, others, otherResult);
      }
    }
    if IsOrderFree(source, repairs) {
      forall a, b | a in repairs && b in repairs && IsSameSpan(a, b)
        ensures Commute(a, b)
      {
        var i :| 0 <= i < |repairs| && repairs[i] == a;
        var j :| 0 <= j < |repairs| && repairs[j] == b;
        if i < j {
          OrderFreeCommute(source, repairs, i, j);
        } else if j < i {
          OrderFreeCommute(source, repairs, j, i);
        }
      }
    }
  }

  lemma CommutingOutcomesAgree(
    source: seq<u8>, repairs: seq<Repair>, result: Result<seq<u8>, RepairError>,
    others: seq<Repair>, otherResult: Result<seq<u8>, RepairError>)
    requires AllInRange(source, repairs) && AllApart(repairs) && AllCommute(repairs)
    requires Gives(source, repairs, result) && Gives(source, others, otherResult)
    requires multiset(repairs) == multiset(others)
    ensures result == otherResult
  {
    SortedAlike(source, repairs, others);
    GivenIsWritten(source, repairs, result);
    GivenIsWritten(source, others, otherResult);
    InEither(repairs, StableSort(repairs));
    CommutingWriteTheSame(source, StableSort(repairs), StableSort(others));
  }

  /** In particular when no two spans are equal. */
  lemma ArrivalOrderDecidesNothing(
    source: seq<u8>, repairs: seq<Repair>, result: Result<seq<u8>, RepairError>,
    others: seq<Repair>, otherResult: Result<seq<u8>, RepairError>)
    requires Gives(source, repairs, result) && Gives(source, others, otherResult)
    requires multiset(repairs) == multiset(others)
    ensures result.Ok? <==> otherResult.Ok?
    ensures result.Ok? && DistinctSpans(repairs) ==> result == otherResult
  {
    SuccessIsOrderFree(source, repairs, result, others, otherResult);
    if result.Ok? && DistinctSpans(repairs) {
      forall a, b | a in repairs && b in repairs && IsSameSpan(a, b)
        ensures Commute(a, b)
      {
        var i :| 0 <= i < |repairs| && repairs[i] == a;
        var j :| 0 <= j < |repairs| && repairs[j] == b;
        assert i < j || j < i || i == j;
      }
      CommutingOutcomesAgree(source, repairs, result, others, otherResult);
    }
  }

  /** Two insertions at one point come out in the order they arrived, so there arrival order does matter. */
  lemma EqualSpansKeepArrivalOrder()
    ensures var a, b := Repair(0, 0, [65], []), Repair(0, 0, [66], []);
            && StablySorted([a, b], [0, 1], 2) && StablySorted([b, a], [0, 1], 2)
            && SpliceEach([], [a, b]) == [65, 66] && SpliceEach([], [b, a]) == [66, 65]
  {
    TwoInserted([65], [66]);
    TwoInserted([66], [65]);
  }

  lemma SpliceTwo(source: seq<u8>, a: Repair, b: Repair)
    requires InLine(source, [a, b])
    ensures InRange(source, b) && InRange(Splice(source, b), a)
    ensures SpliceEach(source, [a, b]) == Splice(Splice(source, b), a)
  {
    assert [a] + [b] == [a, b] && [] + [a] == [a];
    SpliceLast(source, [a], b);
    SpliceLast(Splice(source, b), [], a);
  }

  lemma InsertedAlone(text: seq<u8>)
    ensures [][..0] + text + [][0..] == text
  {
  }

  lemma TwoInserted(one: seq<u8>, other: seq<u8>)
    ensures SpliceEach([], [Repair(0, 0, one, []), Repair(0, 0, other, [])]) == one + other
  {
    var a, b := Repair(0, 0, one, []), Repair(0, 0, other, []);
    SpliceTwo([], a, b);
    TwoInsertions([], a, b);
    InsertedAlone(TextOf(a) + TextOf(b));
    assert TextOf(a) == one && TextOf(b) == other;
  }

  // ---- Which fault is named -----------------------------------------------------------------------

  ghost predicate DistinctSpans(repairs: seq<Repair>) {
    forall i, j :: 0 <= i < j < |repairs| ==>
      repairs[i].spanStart != repairs[j].spanStart || repairs[i].spanEnd != repairs[j].spanEnd
  }

  ghost predicate StrictlySorted(repairs: seq<Repair>) {
    forall i, j :: 0 <= i < j < |repairs| ==> KeyBelow(repairs[i], repairs[j])
  }

  lemma {:induction false} SortedListsAgree(a: seq<Repair>, b: seq<Repair>)
    requires StrictlySorted(a) && StrictlySorted(b)
    requires forall repair :: repair in a <==> repair in b
    ensures a == b
    decreases |a|
  {
    assert b != [] ==> b[0] in b;
    if a != [] {
      assert a[0] in b;
      assert b[0] in a;
      assert a[0] == b[0];
      forall repair
        ensures repair in a[1..] <==> repair in b[1..]
      {
        assert a == [a[0]] + a[1..] && b == [b[0]] + b[1..];
        if repair in a[1..] {
          assert repair in b;
        }
        if repair in b[1..] {
          assert repair in a;
        }
      }
      SortedListsAgree(a[1..], b[1..]);
    }
  }

  lemma OrderedIsStrict(repairs: seq<Repair>, order: seq<nat>)
    requires StablySorted(repairs, order, |repairs|) && DistinctSpans(repairs)
    requires forall i :: 0 <= i < |order| ==> order[i] < |repairs|
    ensures StrictlySorted(Ordered(repairs, order))
    ensures forall repair :: repair in Ordered(repairs, order) <==> repair in repairs
  {
    var sorted := Ordered(repairs, order);
    forall i, j | 0 <= i < j < |sorted|
      ensures KeyBelow(sorted[i], sorted[j])
    {
      assert Precedes(repairs, order[i], order[j]);
    }
    forall repair
      ensures repair in sorted <==> repair in repairs
    {
      if repair in repairs {
        var row :| 0 <= row < |repairs| && repairs[row] == repair;
        assert row in order;
        var i :| 0 <= i < |order| && order[i] == row;
        assert sorted[i] == repair;
      }
    }
  }

  /** With no two spans equal, the order repairs arrive in changes nothing that is written. */
  lemma ArrivalOrderIsIrrelevant(repairs: seq<Repair>, order: seq<nat>, others: seq<Repair>, otherOrder: seq<nat>)
    requires StablySorted(repairs, order, |repairs|) && StablySorted(others, otherOrder, |others|)
    requires forall i :: 0 <= i < |order| ==> order[i] < |repairs|
    requires forall i :: 0 <= i < |otherOrder| ==> otherOrder[i] < |others|
    requires DistinctSpans(repairs) && multiset(repairs) == multiset(others)
    ensures Ordered(repairs, order) == Ordered(others, otherOrder)
  {
    SameMultisetDistinct(repairs, others);
    OrderedIsStrict(repairs, order);
    OrderedIsStrict(others, otherOrder);
    assert forall repair :: repair in repairs <==> repair in multiset(repairs);
    assert forall repair :: repair in others <==> repair in multiset(others);
    SortedListsAgree(Ordered(repairs, order), Ordered(others, otherOrder));
  }

  lemma SameMultisetDistinct(repairs: seq<Repair>, others: seq<Repair>)
    requires DistinctSpans(repairs) && multiset(repairs) == multiset(others)
    ensures DistinctSpans(others)
  {
    forall i, j | 0 <= i < j < |others|
      ensures others[i].spanStart != others[j].spanStart || others[i].spanEnd != others[j].spanEnd
    {
      if others[i].spanStart == others[j].spanStart && others[i].spanEnd == others[j].spanEnd {
        assert others[i] in multiset(others) && others[j] in multiset(others);
        var a :| 0 <= a < |repairs| && repairs[a] == others[i];
        var b :| 0 <= b < |repairs| && repairs[b] == others[j];
        assert a == b;
        TwiceInMultiset(others, i, j);
        OnceInMultiset(repairs, a);
      }
    }
  }

  lemma OnceInMultiset(repairs: seq<Repair>, a: nat)
    requires DistinctSpans(repairs) && a < |repairs|
    ensures multiset(repairs)[repairs[a]] == 1
  {
    assert repairs == repairs[..a] + [repairs[a]] + repairs[a + 1..];
    assert repairs[a] !in repairs[..a] && repairs[a] !in repairs[a + 1..];
  }

  /** All the repairs out of range have one span. */
  ghost predicate OneSpanOutside(source: seq<u8>, repairs: seq<Repair>) {
    forall a, b :: a in repairs && b in repairs && !InRange(source, a) && !InRange(source, b) ==> IsSameSpan(a, b)
  }

  lemma {:induction false} FirstOutsideExists(source: seq<u8>, repairs: seq<Repair>) returns (i: nat)
    requires !AllInRange(source, repairs)
    ensures FirstOutside(source, repairs, i)
    decreases |repairs|
  {
    var shorter := repairs[..|repairs| - 1];
    if AllInRange(source, shorter) {
      i := |repairs| - 1;
      assert forall j :: 0 <= j < i ==> repairs[j] == shorter[j];
    } else {
      i := FirstOutsideExists(source, shorter);
    }
  }

  lemma FirstFaultIsGiven(source: seq<u8>, repairs: seq<Repair>, i: nat)
    requires FirstOutside(source, repairs, i)
    ensures Gives(source, repairs, Err(SpanOutOfRange(repairs[i].spanStart, repairs[i].spanEnd)))
  {
    var order := SortedOrderExists(repairs);
    assert IsApplied(source, repairs, order, Err(SpanOutOfRange(repairs[i].spanStart, repairs[i].spanEnd)));
  }

  lemma GivenIsSomeFault(source: seq<u8>, repairs: seq<Repair>, result: Result<seq<u8>, RepairError>)
    returns (repair: Repair)
    requires !AllInRange(source, repairs) && Gives(source, repairs, result)
    ensures repair in repairs && !InRange(source, repair)
    ensures result == Err(SpanOutOfRange(repair.spanStart, repair.spanEnd))
  {
    var order :| Sorts(repairs, order) && IsApplied(source, repairs, order, result);
    var i: nat :| FirstOutside(source, repairs, i)
                  && result == Err(SpanOutOfRange(repairs[i].spanStart, repairs[i].spanEnd));
    repair := repairs[i];
  }

  lemma FrontFaultIsGiven(source: seq<u8>, repairs: seq<Repair>, i: nat)
    requires i < |repairs| && !InRange(source, repairs[i]) && IsOrderFree(source, repairs)
    ensures forall result :: Gives(source, repairs, result) ==>
              result == Err(SpanOutOfRange(repairs[i].spanStart, repairs[i].spanEnd))
  {
    var front := [repairs[i]] + (repairs[..i] + repairs[i + 1..]);
    assert repairs == repairs[..i] + [repairs[i]] + repairs[i + 1..];
    assert multiset(front) == multiset(repairs);
    FirstFaultIsGiven(source, front, 0);
  }

  /** Where some span is out of range, every order names the same one exactly when all such repairs have one span. */
  lemma RangeFaultIsOrderFreeExactlyWhen(source: seq<u8>, repairs: seq<Repair>)
    requires !AllInRange(source, repairs)
    ensures IsOrderFree(source, repairs) <==> OneSpanOutside(source, repairs)
  {
    if OneSpanOutside(source, repairs) {
      forall others, result, otherResult |
        multiset(others) == multiset(repairs) && Gives(source, repairs, result) && Gives(source, others, otherResult)
        ensures result == otherResult
      {
        SameRanges(source, others, repairs);
        InEither(repairs, others);
        var a := GivenIsSomeFault(source, repairs, result);
        var b := GivenIsSomeFault(source, others, otherResult);
      }
    }
    if IsOrderFree(source, repairs) {
      var first := FirstOutsideExists(source, repairs);
      FirstFaultIsGiven(source, repairs, first);
      forall a, b | a in repairs && b in repairs && !InRange(source, a) && !InRange(source, b)
        ensures IsSameSpan(a, b)
      {
        var i :| 0 <= i < |repairs| && repairs[i] == a;
        var j :| 0 <= j < |repairs| && repairs[j] == b;
        FrontFaultIsGiven(source, repairs, i);
        FrontFaultIsGiven(source, repairs, j);
      }
    }
  }

  /** For instance, of two repairs past the end of a source the one that came first is the one the error names. */
  lemma ArrivalOrderDecidesTheFault(result: Result<seq<u8>, RepairError>, otherResult: Result<seq<u8>, RepairError>)
    requires var a, b := Repair(1, 1, [], []), Repair(2, 2, [], []);
             && StablySorted([a, b], [0, 1], 2) && IsApplied([], [a, b], [0, 1], result)
             && StablySorted([b, a], [1, 0], 2) && IsApplied([], [b, a], [1, 0], otherResult)
    ensures result == Err(SpanOutOfRange(1, 1)) && otherResult == Err(SpanOutOfRange(2, 2))
  {
    var a, b := Repair(1, 1, [], []), Repair(2, 2, [], []);
    assert !InRange([], [a, b][0]) && !InRange([], [b, a][0]);
  }

  // ---- Which overlap is named ---------------------------------------------------------------------

  datatype Span = Span(start: nat, end: nat)

  function SpanOf(repair: Repair): Span {
    Span(repair.spanStart, repair.spanEnd)
  }

  function SpansOf(repairs: seq<Repair>): (r: seq<Span>)
    ensures |r| == |repairs| && forall i :: 0 <= i < |r| ==> r[i] == SpanOf(repairs[i])
  {
    seq(|repairs|, i requires 0 <= i < |repairs| => SpanOf(repairs[i]))
  }

  lemma {:induction false} SameRepairsSameSpans(repairs: seq<Repair>, others: seq<Repair>)
    requires multiset(repairs) == multiset(others)
    ensures multiset(SpansOf(repairs)) == multiset(SpansOf(others))
    decreases |repairs|
  {
    AsManyRepairs(repairs, others);
    if repairs != [] {
      var k := WithoutFirst(repairs, others);
      SpansWithOneMore([], repairs[0], repairs[1..]);
      SpansWithOneMore(others[..k], repairs[0], others[k + 1..]);
      SameRepairsSameSpans(repairs[1..], others[..k] + others[k + 1..]);
    }
  }

  lemma SplitAt(repairs: seq<Repair>, k: nat)
    requires k < |repairs|
    ensures repairs == repairs[..k] + [repairs[k]] + repairs[k + 1..]
  {
  }

  lemma OneMore(before: seq<Repair>, repair: Repair, after: seq<Repair>)
    ensures multiset(before + [repair] + after) == multiset(before + after) + multiset{repair}
  {
  }

  lemma OneFewer(one: multiset<Repair>, other: multiset<Repair>, repair: Repair)
    requires one + multiset{repair} == other + multiset{repair}
    ensures one == other
  {
    assert one == one + multiset{repair} - multiset{repair};
  }

  lemma WithoutFirst(repairs: seq<Repair>, others: seq<Repair>) returns (k: nat)
    requires multiset(repairs) == multiset(others) && repairs != []
    ensures k < |others| && multiset(repairs[1..]) == multiset(others[..k] + others[k + 1..])
    ensures others == others[..k] + [repairs[0]] + others[k + 1..]
    ensures repairs == [] + [repairs[0]] + repairs[1..] && [] + repairs[1..] == repairs[1..]
  {
    InEither(repairs, others);
    assert repairs[0] in others;
    k :| 0 <= k < |others| && others[k] == repairs[0];
    SplitAt(others, k);
    SplitAt(repairs, 0);
    OneMore(others[..k], repairs[0], others[k + 1..]);
    OneMore([], repairs[0], repairs[1..]);
    OneFewer(multiset(repairs[1..]), multiset(others[..k] + others[k + 1..]), repairs[0]);
  }

  lemma SpansWithOneMore(before: seq<Repair>, repair: Repair, after: seq<Repair>)
    ensures multiset(before + [repair] + after) == multiset(before + after) + multiset{repair}
    ensures multiset(SpansOf(before + [repair] + after)) == multiset(SpansOf(before + after)) + multiset{SpanOf(repair)}
  {
    assert SpansOf(before + [repair] + after) == SpansOf(before) + [SpanOf(repair)] + SpansOf(after);
    assert SpansOf(before + after) == SpansOf(before) + SpansOf(after);
  }

  predicate SpanBelow(a: Span, b: Span) {
    a.start < b.start || (a.start == b.start && a.end < b.end)
  }

  ghost predicate SpansAscend(spans: seq<Span>) {
    forall i, j :: 0 <= i < j < |spans| ==> !SpanBelow(spans[j], spans[i])
  }

  lemma {:induction false} AscendingSpansAgree(one: seq<Span>, other: seq<Span>)
    requires SpansAscend(one) && SpansAscend(other) && multiset(one) == multiset(other)
    ensures one == other
    decreases |one|
  {
    assert |one| == |multiset(one)| == |multiset(other)| == |other|;
    if one != [] {
      assert one[0] in multiset(other) && other[0] in multiset(one);
      assert one[0] in other && other[0] in one;
      assert one[0] == other[0];
      assert one == [one[0]] + one[1..] && other == [other[0]] + other[1..];
      assert multiset(one[1..]) == multiset(one) - multiset{one[0]};
      AscendingSpansAgree(one[1..], other[1..]);
    }
  }

  lemma SortedSpansAscend(repairs: seq<Repair>, order: seq<nat>)
    requires Sorts(repairs, order)
    ensures SpansAscend(SpansOf(Ordered(repairs, order)))
  {
    forall i, j | 0 <= i < j < |order|
      ensures !SpanBelow(SpanOf(repairs[order[j]]), SpanOf(repairs[order[i]]))
    {
      assert Precedes(repairs, order[i], order[j]);
    }
  }

  lemma SortedSpansAgree(repairs: seq<Repair>, order: seq<nat>, others: seq<Repair>, otherOrder: seq<nat>)
    requires Sorts(repairs, order) && Sorts(others, otherOrder) && multiset(repairs) == multiset(others)
    ensures SpansOf(Ordered(repairs, order)) == SpansOf(Ordered(others, otherOrder))
  {
    SortedIsStableSort(repairs, order);
    SortedIsStableSort(others, otherOrder);
    StableSortKeepsRepairs(repairs);
    StableSortKeepsRepairs(others);
    SameRepairsSameSpans(StableSort(repairs), StableSort(others));
    SortedSpansAscend(repairs, order);
    SortedSpansAscend(others, otherOrder);
    AscendingSpansAgree(SpansOf(StableSort(repairs)), SpansOf(StableSort(others)));
  }

  lemma OneFirstOverlap(one: seq<Repair>, other: seq<Repair>, i: nat, j: nat)
    requires SpansOf(one) == SpansOf(other) && FirstOverlap(one, i) && FirstOverlap(other, j)
    ensures i == j
  {
    assert SpansOf(one)[i] == SpansOf(other)[i] && SpansOf(one)[i - 1] == SpansOf(other)[i - 1];
    assert SpansOf(one)[j] == SpansOf(other)[j] && SpansOf(one)[j - 1] == SpansOf(other)[j - 1];
  }

  /**
   * Where every span is in range and some overlap, every arrival order names two repairs of the same two spans, and
   * the same two repairs where no two spans are equal.
   */
  lemma OverlapNamesTheSameSpans(
    source: seq<u8>, repairs: seq<Repair>, result: Result<seq<u8>, RepairError>,
    others: seq<Repair>, otherResult: Result<seq<u8>, RepairError>)
    requires AllInRange(source, repairs) && !AllApart(repairs) && multiset(repairs) == multiset(others)
    requires Gives(source, repairs, result) && Gives(source, others, otherResult)
    ensures result.Err? && result.error.OverlappingRepairs?
    ensures otherResult.Err? && otherResult.error.OverlappingRepairs?
    ensures result.error.earlier < |repairs| && result.error.later < |repairs|
    ensures otherResult.error.earlier < |others| && otherResult.error.later < |others|
    ensures IsSameSpan(repairs[result.error.earlier], others[otherResult.error.earlier])
    ensures IsSameSpan(repairs[result.error.later], others[otherResult.error.later])
    ensures DistinctSpans(repairs) ==>
              && repairs[result.error.earlier] == others[otherResult.error.earlier]
              && repairs[result.error.later] == others[otherResult.error.later]
  {
    SameRanges(source, repairs, others);
    if AllApart(others) {
      SameApartness(others, repairs);
    }
    var order, i := GivenOverlap(source, repairs, result);
    var otherOrder, j := GivenOverlap(source, others, otherResult);
    var one, other := Ordered(repairs, order), Ordered(others, otherOrder);
    SortedSpansAgree(repairs, order, others, otherOrder);
    OneFirstOverlap(one, other, i, j);
    assert SpansOf(one)[i] == SpansOf(other)[i] && SpansOf(one)[i - 1] == SpansOf(other)[i - 1];
    if DistinctSpans(repairs) {
      ArrivalOrderIsIrrelevant(repairs, order, others, otherOrder);
      assert one[i] == other[i] && one[i - 1] == other[i - 1];
    }
  }

  lemma GivenOverlap(source: seq<u8>, repairs: seq<Repair>, result: Result<seq<u8>, RepairError>)
    returns (order: seq<nat>, i: nat)
    requires AllInRange(source, repairs) && !AllApart(repairs) && Gives(source, repairs, result)
    ensures Sorts(repairs, order) && FirstOverlap(Ordered(repairs, order), i)
    ensures result == Err(OverlappingRepairs(order[i - 1], order[i]))
  {
    order :| Sorts(repairs, order) && IsApplied(source, repairs, order, result);
    i :| FirstOverlap(Ordered(repairs, order), i) && result == Err(OverlappingRepairs(order[i - 1], order[i]));
  }

  // ---- When the overlap named does not depend on the order ----------------------------------------

  predicate NamesThem(repairs: seq<Repair>, result: Result<seq<u8>, RepairError>, a: Repair, b: Repair) {
    && result.Err? && result.error.OverlappingRepairs?
    && result.error.earlier < |repairs| && repairs[result.error.earlier] == a
    && result.error.later < |repairs| && repairs[result.error.later] == b
  }

  /** Whatever order the repairs arrive in, `a` and `b` are the two that are named. */
  ghost predicate AlwaysNamed(source: seq<u8>, repairs: seq<Repair>, a: Repair, b: Repair) {
    forall others, result ::
      multiset(others) == multiset(repairs) && Gives(source, others, result) ==> NamesThem(others, result, a, b)
  }

  ghost predicate OnlyOneOfItsSpan(repairs: seq<Repair>, repair: Repair) {
    forall other :: other in repairs && IsSameSpan(other, repair) ==> other == repair
  }

  /** Of two repairs that first overlap, the earlier has no other of its span before it, and after it only if the
      later is one too. */
  lemma EarlierOfItsSpan(sorted: seq<Repair>, i: nat, k: nat)
    requires SpansAscend(SpansOf(sorted)) && FirstOverlap(sorted, i)
    requires k < |sorted| && k != i - 1 && IsSameSpan(sorted[k], sorted[i - 1])
    ensures i <= k && IsSameSpan(sorted[i], sorted[i - 1])
  {
    var spans := SpansOf(sorted);
    if k < i - 1 {
      SpansBetween(spans, k, k + 1, i - 1);
    } else {
      SpansBetween(spans, i - 1, i, k);
    }
  }

  lemma SpansBetween(spans: seq<Span>, from: nat, m: nat, to: nat)
    requires SpansAscend(spans) && from <= m <= to < |spans| && spans[from] == spans[to]
    ensures spans[m] == spans[from]
  {
    assert from < m ==> !SpanBelow(spans[m], spans[from]);
    assert m < to ==> !SpanBelow(spans[to], spans[m]);
  }

  /** What arrives first comes first among those of its span. */
  lemma FrontComesFirst(sorted: seq<Repair>, repair: Repair, spans: seq<Span>, m: nat)
    requires SpansOf(Insert(sorted, repair)) == spans && m < |spans| && spans[m] == SpanOf(repair)
    requires forall k :: 0 <= k < m ==> spans[k] != spans[m]
    ensures Insert(sorted, repair)[m] == repair
  {
    var at, now := Place(sorted, repair), Insert(sorted, repair);
    assert now[at] == repair && spans[at] == SpanOf(repair);
    assert m < at ==> now[m] == sorted[m];
    assert SpansOf(now)[m] == SpanOf(now[m]);
  }

  /** Every arrival order sorts into the same spans, overlaps first at the same place, and names what is there. */
  lemma OverlapInSorted(source: seq<u8>, repairs: seq<Repair>, others: seq<Repair>, i: nat)
    requires AllInRange(source, repairs) && !AllApart(repairs) && multiset(repairs) == multiset(others)
    requires FirstOverlap(StableSort(repairs), i)
    ensures var one, other := StableSort(repairs), StableSort(others);
            && SpansOf(other) == SpansOf(one) && SpansAscend(SpansOf(one)) && FirstOverlap(other, i)
            && multiset(other) == multiset(repairs)
            && (exists result :: Gives(source, others, result))
            && forall result :: Gives(source, others, result) ==> NamesThem(others, result, other[i - 1], other[i])
  {
    SameRanges(source, repairs, others);
    if AllApart(others) {
      SameApartness(others, repairs);
    }
    SortedIntoSameSpans(repairs, others);
    OverlapFollowsSpans(StableSort(repairs), StableSort(others), i);
    OverlapIsGiven(source, others, i);
  }

  lemma SortedIntoSameSpans(repairs: seq<Repair>, others: seq<Repair>)
    requires multiset(repairs) == multiset(others)
    ensures SpansOf(StableSort(others)) == SpansOf(StableSort(repairs)) && SpansAscend(SpansOf(StableSort(repairs)))
    ensures multiset(StableSort(others)) == multiset(repairs)
  {
    StableSortKeepsRepairs(others);
    var order := SortedOrderExists(repairs);
    var otherOrder := SortedOrderExists(others);
    SortedSpansAgree(repairs, order, others, otherOrder);
    SortedSpansAscend(repairs, order);
  }

  lemma OverlapIsGiven(source: seq<u8>, repairs: seq<Repair>, i: nat)
    requires AllInRange(source, repairs) && !AllApart(repairs) && FirstOverlap(StableSort(repairs), i)
    ensures exists result :: Gives(source, repairs, result)
    ensures forall result :: Gives(source, repairs, result) ==>
              NamesThem(repairs, result, StableSort(repairs)[i - 1], StableSort(repairs)[i])
  {
    var order := SortedOrderExists(repairs);
    assert IsApplied(source, repairs, order, Err(OverlappingRepairs(order[i - 1], order[i])));
    assert Gives(source, repairs, Err(OverlappingRepairs(order[i - 1], order[i])));
    forall result | Gives(source, repairs, result)
      ensures NamesThem(repairs, result, StableSort(repairs)[i - 1], StableSort(repairs)[i])
    {
      var given, j := GivenOverlap(source, repairs, result);
      SortedIsStableSort(repairs, given);
      OneFirstOverlap(StableSort(repairs), StableSort(repairs), i, j);
    }
  }

  lemma OverlapFollowsSpans(one: seq<Repair>, other: seq<Repair>, i: nat)
    requires SpansOf(one) == SpansOf(other) && FirstOverlap(one, i)
    ensures FirstOverlap(other, i)
  {
    forall j | 0 <= j < |one|
      ensures IsSameSpan(one[j], other[j])
    {
      assert SpansOf(one)[j] == SpansOf(other)[j];
    }
  }

  lemma InFront(repairs: seq<Repair>, repair: Repair) returns (front: seq<Repair>)
    requires repair in repairs
    ensures front != [] && front[0] == repair && multiset(front) == multiset(repairs)
  {
    var k :| 0 <= k < |repairs| && repairs[k] == repair;
    SplitAt(repairs, k);
    front := [repair] + (repairs[..k] + repairs[k + 1..]);
    OneMore(repairs[..k], repair, repairs[k + 1..]);
    OneMore([], repair, repairs[..k] + repairs[k + 1..]);
    assert [] + [repair] + (repairs[..k] + repairs[k + 1..]) == front;
    assert [] + (repairs[..k] + repairs[k + 1..]) == repairs[..k] + repairs[k + 1..];
  }

  /** Bringing a repair of the later's span to the front gets it named: as the earlier if both spans are one. */
  lemma FrontIsNamed(source: seq<u8>, repairs: seq<Repair>, i: nat, repair: Repair, a: Repair, b: Repair)
    requires AllInRange(source, repairs) && !AllApart(repairs) && FirstOverlap(StableSort(repairs), i)
    requires AlwaysNamed(source, repairs, a, b) && IsSameSpan(a, StableSort(repairs)[i - 1])
    requires repair in repairs && IsSameSpan(repair, StableSort(repairs)[i])
    ensures repair == if IsSameSpan(StableSort(repairs)[i - 1], StableSort(repairs)[i]) then a else b
  {
    var one := StableSort(repairs);
    var front := InFront(repairs, repair);
    OverlapInSorted(source, repairs, front, i);
    var other := StableSort(front);
    var result :| Gives(source, front, result);
    assert NamesThem(front, result, a, b) && NamesThem(front, result, other[i - 1], other[i]);
    var m := if IsSameSpan(one[i - 1], one[i]) then i - 1 else i;
    FirstOfLaterSpan(one, i, m);
    FrontComesFirst(StableSort(front[1..]), repair, SpansOf(one), m);
  }

  lemma FirstOfLaterSpan(sorted: seq<Repair>, i: nat, m: nat)
    requires SpansAscend(SpansOf(sorted)) && FirstOverlap(sorted, i)
    requires m == if IsSameSpan(sorted[i - 1], sorted[i]) then i - 1 else i
    ensures forall k :: 0 <= k < m ==> SpansOf(sorted)[k] != SpansOf(sorted)[m]
  {
    var spans := SpansOf(sorted);
    forall k | 0 <= k < m
      ensures spans[k] != spans[m]
    {
      assert !SpanBelow(spans[i], spans[i - 1]);
      if k < i - 1 {
        assert !SpanBelow(spans[i - 1], spans[k]);
        if IsSameSpan(sorted[k], sorted[i - 1]) {
          EarlierOfItsSpan(sorted, i, k);
        }
      }
    }
  }

  lemma OnlyOneIsNamed(source: seq<u8>, repairs: seq<Repair>, others: seq<Repair>, i: nat)
    requires AllInRange(source, repairs) && !AllApart(repairs) && multiset(repairs) == multiset(others)
    requires FirstOverlap(StableSort(repairs), i) && OnlyOneOfItsSpan(repairs, StableSort(repairs)[i])
    ensures var one, other := StableSort(repairs), StableSort(others);
            |other| == |one| && other[i - 1] == one[i - 1] && other[i] == one[i]
  {
    var one, other := StableSort(repairs), StableSort(others);
    OverlapInSorted(source, repairs, others, i);
    StableSortKeepsRepairs(repairs);
    assert SpansOf(one)[i] == SpansOf(other)[i] && SpansOf(one)[i - 1] == SpansOf(other)[i - 1];
    InEither(repairs, other);
    InEither(repairs, one);
    assert other[i] in other && other[i - 1] in other && one[i - 1] in one;
    var k :| 0 <= k < |one| && one[k] == other[i - 1];
    if k != i - 1 {
      EarlierOfItsSpan(one, i, k);
    }
  }

  /**
   * Where every span is in range and some overlap, every arrival order names the same two repairs exactly when
   * whatever has the span of the later of the two is the same repair.
   */
  lemma OverlapIsOrderFreeExactlyWhen(
    source: seq<u8>, repairs: seq<Repair>, result: Result<seq<u8>, RepairError>, a: Repair, b: Repair)
    requires AllInRange(source, repairs) && !AllApart(repairs)
    requires Gives(source, repairs, result) && NamesThem(repairs, result, a, b)
    ensures AlwaysNamed(source, repairs, a, b) <==> OnlyOneOfItsSpan(repairs, b)
  {
    var order, i := GivenOverlap(source, repairs, result);
    SortedIsStableSort(repairs, order);
    var one := StableSort(repairs);
    assert one[i - 1] == a && one[i] == b;
    if OnlyOneOfItsSpan(repairs, b) {
      forall others, otherResult | multiset(others) == multiset(repairs) && Gives(source, others, otherResult)
        ensures NamesThem(others, otherResult, a, b)
      {
        OverlapInSorted(source, repairs, others, i);
        OnlyOneIsNamed(source, repairs, others, i);
      }
    }
    if AlwaysNamed(source, repairs, a, b) {
      forall repair | repair in repairs && IsSameSpan(repair, b)
        ensures repair == b
      {
        FrontIsNamed(source, repairs, i, repair, a, b);
        FrontIsNamed(source, repairs, i, b, a, b);
      }
    }
  }
}
