/** Repairs a compiler's type mismatches call for, applied to a source in one pass. */
module Repair {
  import opened Basics

  datatype DiagnosticCode = MismatchedTypes | Unhandled

  datatype Diagnostic = Diagnostic(
    code: DiagnosticCode, spanStart: u32, spanEnd: u32, expected: seq<u8>, found: seq<u8>)

  datatype Repair = Repair(spanStart: u32, spanEnd: u32, prefix: seq<u8>, suffix: seq<u8>)

  datatype RepairError =
    | SpanOutOfRange(spanStart: u32, spanEnd: u32)
    | OverlappingRepairs(earlier: nat, later: nat)

  // ---- Planning -------------------------------------------------------------------------------

  datatype IntegerType = IntegerType(signed: bool, width: Option<nat>)

  predicate IsDigit(byte: u8) {
    '0' as int <= byte <= '9' as int
  }

  function DigitsValue(digits: seq<u8>): nat
    requires forall i :: 0 <= i < |digits| ==> IsDigit(digits[i])
  {
    if digits == [] then 0
    else
      assert IsDigit(digits[|digits| - 1]);
      var last: nat := digits[|digits| - 1] as int - '0' as int;
      DigitsValue(digits[..|digits| - 1]) * 10 + last
  }

  /** A decimal number, a leading plus sign allowed. */
  function ParseNumber(text: seq<u8>): Option<nat> {
    var digits := if |text| > 0 && text[0] == '+' as int then text[1..] else text;
    if digits == [] || exists i :: 0 <= i < |digits| && !IsDigit(digits[i]) then None
    else Some(DigitsValue(digits))
  }

  function IntegerTypeNamed(name: seq<u8>): Option<IntegerType> {
    if name == [] || (name[0] != 'u' as int && name[0] != 'i' as int) then None
    else
      var signed := name[0] == 'i' as int;
      var rest := name[1..];
      if rest == Ascii("size") then Some(IntegerType(signed, None))
      else
        match ParseNumber(rest)
        case Some(width) =>
          if width in {8, 16, 32, 64, 128} then Some(IntegerType(signed, Some(width))) else None
        case None => None
  }

  function Widens(found: IntegerType, expected: IntegerType): bool {
    found.signed == expected.signed
    && match (found.width, expected.width)
       case (Some(from), Some(to)) => from < to
       case _ => false
  }

  function RepairFor(diagnostic: Diagnostic): Option<Repair> {
    if diagnostic.code != MismatchedTypes || diagnostic.spanEnd < diagnostic.spanStart then None
    else
      match (IntegerTypeNamed(diagnostic.expected), IntegerTypeNamed(diagnostic.found))
      case (Some(expected), Some(found)) =>
        if expected == found then None
        else
          var widens := Widens(found, expected);
          Some(Repair(
            diagnostic.spanStart, diagnostic.spanEnd,
            diagnostic.expected + Ascii(if widens then "::from(" else "::try_from("),
            Ascii(if widens then ")" else ").unwrap()")))
      case _ => None
  }

  /** The repairs the diagnostics call for, in the order the diagnostics come. */
  function PlanRepairs(diagnostics: seq<Diagnostic>): seq<Repair> {
    if diagnostics == [] then []
    else
      var repair := RepairFor(diagnostics[0]);
      (if repair.Some? then [repair.value] else []) + PlanRepairs(diagnostics[1..])
  }

  /** Planned repairs only ever fail to apply by running past the source or into one another. */
  lemma {:induction false} PlannedSpansAreOrdered(diagnostics: seq<Diagnostic>)
    ensures forall repair :: repair in PlanRepairs(diagnostics) ==> repair.spanStart <= repair.spanEnd
  {
    if diagnostics != [] {
      PlannedSpansAreOrdered(diagnostics[1..]);
    }
  }

  function Pow2(n: nat): nat {
    if n == 0 then 1 else 2 * Pow2(n - 1)
  }

  lemma {:induction false} Pow2Grows(low: nat, high: nat)
    requires low < high
    ensures 0 < Pow2(low) < Pow2(high)
    decreases high
  {
    if low + 1 < high {
      Pow2Grows(low, high - 1);
    } else if low > 0 {
      Pow2Grows(low - 1, low);
    }
  }

  predicate IsSized(kind: IntegerType) {
    kind.width.Some? && kind.width.value > 0
  }

  /** Whether a value fits a sized integer type. */
  ghost predicate Fits(value: int, kind: IntegerType)
    requires IsSized(kind)
  {
    if kind.signed then 0 - (Pow2(kind.width.value - 1) as int) <= value < Pow2(kind.width.value - 1)
    else 0 <= value < Pow2(kind.width.value)
  }

  ghost predicate NothingIsLost(found: IntegerType, expected: IntegerType)
    requires IsSized(found) && IsSized(expected)
  {
    forall value :: Fits(value, found) ==> Fits(value, expected)
  }

  /** The one lossless pair the code still converts fallibly: an unsigned type into a wider signed one. */
  predicate GainsASign(found: IntegerType, expected: IntegerType)
    requires IsSized(found) && IsSized(expected)
  {
    !found.signed && expected.signed && found.width.value < expected.width.value
  }

  lemma SameSignLosesNothing(found: IntegerType, expected: IntegerType)
    requires IsSized(found) && IsSized(expected) && found.signed == expected.signed
    ensures NothingIsLost(found, expected) <==> found.width.value <= expected.width.value
  {
    var from, to := found.width.value, expected.width.value;
    if from < to {
      Pow2Grows(from, to);
      Pow2Grows(from - 1, to - 1);
    } else if to < from {
      Pow2Grows(to, from);
      Pow2Grows(to - 1, from - 1);
      var beyond := if found.signed then Pow2(to - 1) else Pow2(to);
      assert Fits(beyond, found) && !Fits(beyond, expected);
    }
  }

  lemma {:induction false} Pow2IsPositive(n: nat)
    ensures Pow2(n) > 0
  {
    if n > 0 {
      Pow2IsPositive(n - 1);
    }
  }

  lemma OtherSignLosesNothing(found: IntegerType, expected: IntegerType)
    requires IsSized(found) && IsSized(expected) && found.signed != expected.signed
    ensures NothingIsLost(found, expected) <==> GainsASign(found, expected)
  {
    var from, to := found.width.value, expected.width.value;
    Pow2IsPositive(from - 1);
    if found.signed {
      assert Fits(-1, found) && !Fits(-1, expected);
    } else if from < to {
      if from < to - 1 {
        Pow2Grows(from, to - 1);
      }
    } else {
      if to - 1 < from {
        Pow2Grows(to - 1, from);
      }
      Pow2IsPositive(to - 1);
      assert Fits(Pow2(to - 1), found) && !Fits(Pow2(to - 1), expected);
    }
  }

  /**
   * Between two different sized types nothing is lost exactly when the infallible conversion is chosen, or the type
   * gains a sign and width: so the infallible one never loses a value, and those are the pairs it is not chosen for.
   */
  lemma NothingIsLostExactlyWhen(found: IntegerType, expected: IntegerType)
    requires IsSized(found) && IsSized(expected) && found != expected
    ensures NothingIsLost(found, expected) <==> Widens(found, expected) || GainsASign(found, expected)
    ensures !(Widens(found, expected) && GainsASign(found, expected))
  {
    if found.signed == expected.signed {
      SameSignLosesNothing(found, expected);
    } else {
      OtherSignLosesNothing(found, expected);
    }
  }

  // ---- The order repairs are applied in --------------------------------------------------------

  predicate KeyBelow(a: Repair, b: Repair) {
    a.spanStart < b.spanStart || (a.spanStart == b.spanStart && a.spanEnd < b.spanEnd)
  }

  predicate KeyAtMost(a: Repair, b: Repair) {
    !KeyBelow(b, a)
  }

  /** A permutation of the rows, sorted by span, with rows of equal spans in their original order. */
  ghost predicate StablySorted(repairs: seq<Repair>, order: seq<nat>, rows: nat)
    requires rows <= |repairs|
  {
    && |order| == rows
    && (forall row: nat :: row in order <==> row < rows)
    && (forall a, b :: 0 <= a < b < |order| ==> Precedes(repairs, order[a], order[b]))
  }

  ghost predicate Precedes(repairs: seq<Repair>, a: nat, b: nat) {
    && a < |repairs| && b < |repairs|
    && (KeyBelow(repairs[a], repairs[b]) || (KeyAtMost(repairs[a], repairs[b]) && a < b))
  }

  /** The repairs in the order of `order`. */
  function Ordered(repairs: seq<Repair>, order: seq<nat>): seq<Repair>
    requires forall i :: 0 <= i < |order| ==> order[i] < |repairs|
  {
    seq(|order|, i requires 0 <= i < |order| => repairs[order[i]])
  }

  /** `at` is where `row` goes: after everything not above it, before everything above it. */
  ghost predicate GoesAt(repairs: seq<Repair>, order: seq<nat>, row: nat, at: nat)
    requires row < |repairs|
  {
    && at <= |order|
    && (forall i :: 0 <= i < at ==> order[i] < |repairs| && KeyAtMost(repairs[order[i]], repairs[row]))
    && (forall i :: at <= i < |order| ==> order[i] < |repairs| && KeyBelow(repairs[row], repairs[order[i]]))
  }

  lemma InsertedPrecede(repairs: seq<Repair>, order: seq<nat>, row: nat, at: nat, a: nat, b: nat)
    requires row < |repairs| && StablySorted(repairs, order, row) && GoesAt(repairs, order, row, at)
    requires a < b <= |order|
    ensures var longer := order[..at] + [row] + order[at..]; Precedes(repairs, longer[a], longer[b])
  {
    if b == at {
      assert order[a] in order;
    }
  }

  lemma InsertKeepsSorted(repairs: seq<Repair>, order: seq<nat>, row: nat, at: nat)
    requires row < |repairs| && StablySorted(repairs, order, row) && GoesAt(repairs, order, row, at)
    ensures StablySorted(repairs, order[..at] + [row] + order[at..], row + 1)
  {
    var longer := order[..at] + [row] + order[at..];
    assert order == order[..at] + order[at..];
    assert forall r: nat :: r in longer <==> r in order || r == row;
    forall a, b | 0 <= a < b < |longer|
      ensures Precedes(repairs, longer[a], longer[b])
    {
      InsertedPrecede(repairs, order, row, at, a, b);
    }
  }

  /** Below one row that is not above `row`, none is; from one above it on, all are. */
  lemma PlaceToInsert(repairs: seq<Repair>, order: seq<nat>, row: nat, at: nat)
    requires row < |repairs| && StablySorted(repairs, order, row) && at <= |order|
    requires forall i :: 0 <= i < |order| ==> order[i] < |repairs|
    requires at > 0 ==> !KeyBelow(repairs[row], repairs[order[at - 1]])
    requires at < |order| ==> KeyBelow(repairs[row], repairs[order[at]])
    ensures GoesAt(repairs, order, row, at)
  {
    forall i | 0 <= i < |order|
      ensures if i < at then KeyAtMost(repairs[order[i]], repairs[row]) else KeyBelow(repairs[row], repairs[order[i]])
    {
      if i < at - 1 {
        assert Precedes(repairs, order[i], order[at - 1]);
      } else if i > at {
        assert Precedes(repairs, order[at], order[i]);
      }
    }
  }

  /** The row numbers sorted by span; the sort keeps rows of equal spans in the order they came. */
  method SortBySpan(repairs: seq<Repair>) returns (order: seq<nat>)
    ensures StablySorted(repairs, order, |repairs|)
  {
    order := [];
    for row := 0 to |repairs|
      invariant StablySorted(repairs, order, row)
    {
      var at := |order|;
      assert forall i :: 0 <= i < |order| ==> order[i] in order;
      while at > 0 && KeyBelow(repairs[row], repairs[order[at - 1]])
        invariant 0 <= at <= |order|
        invariant at < |order| ==> KeyBelow(repairs[row], repairs[order[at]])
      {
        at := at - 1;
      }
      PlaceToInsert(repairs, order, row, at);
      InsertKeepsSorted(repairs, order, row, at);
      order := order[..at] + [row] + order[at..];
    }
  }

  // ---- Splicing ----------------------------------------------------------------------------------

  predicate InRange(source: seq<u8>, repair: Repair) {
    repair.spanStart <= repair.spanEnd <= |source|
  }

  predicate Apart(a: Repair, b: Repair) {
    a.spanEnd <= b.spanStart || b.spanEnd <= a.spanStart
  }

  /** Spans in range, each starting no earlier than the one before it ends. */
  predicate InLine(source: seq<u8>, repairs: seq<Repair>) {
    && (forall i :: 0 <= i < |repairs| ==> InRange(source, repairs[i]))
    && (forall i :: 0 < i < |repairs| ==> repairs[i - 1].spanEnd <= repairs[i].spanStart)
  }

  /** One repair applied to a source by itself. */
  function Splice(source: seq<u8>, repair: Repair): seq<u8>
    requires InRange(source, repair)
  {
    source[..repair.spanStart] + repair.prefix + source[repair.spanStart..repair.spanEnd] + repair.suffix
      + source[repair.spanEnd..]
  }

  /** A type mismatch between two different integer types, somewhere that does not end before it starts. */
  predicate IsConvertible(diagnostic: Diagnostic) {
    && diagnostic.code == MismatchedTypes && diagnostic.spanStart <= diagnostic.spanEnd
    && IntegerTypeNamed(diagnostic.expected).Some? && IntegerTypeNamed(diagnostic.found).Some?
    && IntegerTypeNamed(diagnostic.expected) != IntegerTypeNamed(diagnostic.found)
  }

  /** Both types say how wide they are and are signed alike, and the one expected is the wider. */
  predicate IsWidening(found: IntegerType, expected: IntegerType) {
    && found.width.Some? && expected.width.Some? && found.signed == expected.signed
    && found.width.value < expected.width.value
  }

  /** The source around the text that was found, with a conversion to the type that was expected around that. */
  function Converted(source: seq<u8>, diagnostic: Diagnostic): seq<u8>
    requires diagnostic.spanStart <= diagnostic.spanEnd <= |source| && IsConvertible(diagnostic)
  {
    var start, end := diagnostic.spanStart, diagnostic.spanEnd;
    var found, expected := IntegerTypeNamed(diagnostic.found).value, IntegerTypeNamed(diagnostic.expected).value;
    if IsWidening(found, expected) then
      source[..start] + diagnostic.expected + Ascii("::from(") + source[start..end] + Ascii(")") + source[end..]
    else
      source[..start] + diagnostic.expected + Ascii("::try_from(") + source[start..end] + Ascii(").unwrap()")
        + source[end..]
  }

  lemma SplicedIs(source: seq<u8>, start: nat, end: nat, type_: seq<u8>, before: seq<u8>, suffix: seq<u8>)
    requires start <= end <= |source|
    ensures source[..start] + (type_ + before) + source[start..end] + suffix + source[end..]
         == source[..start] + type_ + before + source[start..end] + suffix + source[end..]
  {
  }

  /** There is a repair exactly where a conversion is called for, and it writes that conversion into the source. */
  lemma RepairsConvert(source: seq<u8>, diagnostic: Diagnostic)
    ensures RepairFor(diagnostic).Some? <==> IsConvertible(diagnostic)
    ensures RepairFor(diagnostic).Some? && diagnostic.spanEnd <= |source| ==>
              && InRange(source, RepairFor(diagnostic).value)
              && Splice(source, RepairFor(diagnostic).value) == Converted(source, diagnostic)
  {
    if IsConvertible(diagnostic) && diagnostic.spanEnd <= |source| {
      SplicedIs(source, diagnostic.spanStart, diagnostic.spanEnd, diagnostic.expected, Ascii("::from("), Ascii(")"));
      SplicedIs(source, diagnostic.spanStart, diagnostic.spanEnd, diagnostic.expected, Ascii("::try_from("),
                Ascii(").unwrap()"));
    }
  }

  /** The repairs that are planned are those of the diagnostics that have one, in the order the diagnostics come. */
  lemma {:induction false} PlanIsInOrder(diagnostics: seq<Diagnostic>, last: Diagnostic)
    ensures PlanRepairs(diagnostics + [last]) == PlanRepairs(diagnostics) + RepairsOf(last)
  {
    PlanNext(diagnostics + [last]);
    if diagnostics == [] {
      assert (diagnostics + [last])[1..] == [] && PlanRepairs([]) == [];
    } else {
      assert (diagnostics + [last])[1..] == diagnostics[1..] + [last];
      PlanIsInOrder(diagnostics[1..], last);
      PlanNext(diagnostics);
      InTurn(RepairsOf(diagnostics[0]), PlanRepairs(diagnostics[1..]), RepairsOf(last));
    }
  }

  /** The repair a diagnostic has, on its own or not at all. */
  function RepairsOf(diagnostic: Diagnostic): seq<Repair> {
    if IsConvertible(diagnostic) then [RepairFor(diagnostic).value] else []
  }

  lemma PlanNext(diagnostics: seq<Diagnostic>)
    requires diagnostics != []
    ensures PlanRepairs(diagnostics) == RepairsOf(diagnostics[0]) + PlanRepairs(diagnostics[1..])
  {
  }

  lemma InTurn<T>(a: seq<T>, b: seq<T>, c: seq<T>)
    ensures a + b + c == a + (b + c)
  {
  }

  /** The pointer-sized integers. */
  lemma SizesAreNamed()
    ensures IntegerTypeNamed(Ascii("usize")) == Some(IntegerType(false, None))
    ensures IntegerTypeNamed(Ascii("isize")) == Some(IntegerType(true, None))
  {
    assert Ascii("usize")[1..] == Ascii("size") && Ascii("isize")[1..] == Ascii("size");
  }

  /** Each repair applied by itself, the rightmost first. */
  function SpliceEach(source: seq<u8>, repairs: seq<Repair>): seq<u8>
    requires InLine(source, repairs)
    decreases |repairs|
  {
    if repairs == [] then source
    else
      var last := repairs[|repairs| - 1];
      EarlierStayInLine(source, repairs);
      SpliceEach(Splice(source, last), repairs[..|repairs| - 1])
  }

  lemma {:induction false} InLineEnds(source: seq<u8>, repairs: seq<Repair>, i: nat, j: nat)
    requires InLine(source, repairs) && i < j < |repairs|
    ensures repairs[i].spanEnd <= repairs[j].spanStart
    decreases j - i
  {
    if i + 1 < j {
      InLineEnds(source, repairs, i, j - 1);
    }
  }

  lemma EarlierStayInLine(source: seq<u8>, repairs: seq<Repair>)
    requires InLine(source, repairs) && repairs != []
    ensures InLine(Splice(source, repairs[|repairs| - 1]), repairs[..|repairs| - 1])
  {
    var last := |repairs| - 1;
    forall i | 0 <= i < last
      ensures InRange(Splice(source, repairs[last]), repairs[i])
    {
      InLineEnds(source, repairs, i, last);
    }
  }

  function CursorAfter(repairs: seq<Repair>): nat {
    if repairs == [] then 0 else repairs[|repairs| - 1].spanEnd
  }

  /** What one pass from left to right has written once it is past the last of `repairs`. */
  function Written(source: seq<u8>, repairs: seq<Repair>): seq<u8>
    requires InLine(source, repairs)
  {
    if repairs == [] then []
    else
      var last, before := repairs[|repairs| - 1], repairs[..|repairs| - 1];
      Written(source, before) + source[CursorAfter(before)..last.spanStart]
        + last.prefix + source[last.spanStart..last.spanEnd] + last.suffix
  }

  lemma SlicesAgree(source: seq<u8>, other: seq<u8>, end: nat, from: nat, to: nat)
    requires from <= to <= end <= |source| && end <= |other| && source[..end] == other[..end]
    ensures source[from..to] == other[from..to]
  {
    assert source[from..to] == source[..end][from..to];
    assert other[from..to] == other[..end][from..to];
  }

  lemma {:induction false} WrittenReadsOnlyBefore(source: seq<u8>, other: seq<u8>, repairs: seq<Repair>)
    requires InLine(source, repairs) && InLine(other, repairs)
    requires source[..CursorAfter(repairs)] == other[..CursorAfter(repairs)]
    ensures Written(source, repairs) == Written(other, repairs)
  {
    if repairs != [] {
      var last, before := repairs[|repairs| - 1], repairs[..|repairs| - 1];
      var cursor := CursorAfter(before);
      SlicesAgree(source, other, last.spanEnd, 0, cursor);
      SlicesAgree(source, other, last.spanEnd, cursor, last.spanStart);
      SlicesAgree(source, other, last.spanEnd, last.spanStart, last.spanEnd);
      WrittenReadsOnlyBefore(source, other, before);
    }
  }

  lemma SplicedAround(source: seq<u8>, repair: Repair, cursor: nat)
    requires cursor <= repair.spanStart <= repair.spanEnd <= |source|
    ensures var spliced := Splice(source, repair);
            && cursor <= |spliced| && spliced[..cursor] == source[..cursor]
            && spliced[cursor..] == source[cursor..repair.spanStart] + repair.prefix
                                    + source[repair.spanStart..repair.spanEnd] + repair.suffix
                                    + source[repair.spanEnd..]
  {
  }

  /** One pass over sorted repairs writes what splicing each by itself, rightmost first, would. */
  lemma {:induction false} OnePassSplicesEach(source: seq<u8>, repairs: seq<Repair>)
    requires InLine(source, repairs)
    ensures Written(source, repairs) + source[CursorAfter(repairs)..] == SpliceEach(source, repairs)
    decreases |repairs|
  {
    if repairs != [] {
      var last, before := repairs[|repairs| - 1], repairs[..|repairs| - 1];
      var cursor := CursorAfter(before);
      EarlierStayInLine(source, repairs);
      var spliced := Splice(source, last);
      OnePassSplicesEach(spliced, before);
      SplicedAround(source, last, cursor);
      WrittenReadsOnlyBefore(source, spliced, before);
    }
  }

  /** All the bytes the repairs add. */
  function AddedLength(repairs: seq<Repair>): nat {
    if repairs == [] then 0
    else
      var last := repairs[|repairs| - 1];
      AddedLength(repairs[..|repairs| - 1]) + |last.prefix| + |last.suffix|
  }

  lemma {:induction false} LengthAfterRepairs(source: seq<u8>, repairs: seq<Repair>)
    requires InLine(source, repairs)
    ensures |SpliceEach(source, repairs)| == |source| + AddedLength(repairs)
    decreases |repairs|
  {
    if repairs != [] {
      EarlierStayInLine(source, repairs);
      LengthAfterRepairs(Splice(source, repairs[|repairs| - 1]), repairs[..|repairs| - 1]);
    }
  }

  // ---- When repairs apply ----------------------------------------------------------------------

  predicate AllInRange(source: seq<u8>, repairs: seq<Repair>) {
    forall i :: 0 <= i < |repairs| ==> InRange(source, repairs[i])
  }

  predicate AllApart(repairs: seq<Repair>) {
    forall i, j :: 0 <= i < j < |repairs| ==> Apart(repairs[i], repairs[j])
  }

  /** Checking neighbours in sorted order is as good as checking every pair. */
  lemma NeighboursSuffice(source: seq<u8>, repairs: seq<Repair>, order: seq<nat>)
    requires StablySorted(repairs, order, |repairs|) && AllInRange(source, repairs)
    requires forall i :: 0 <= i < |order| ==> order[i] < |repairs|
    ensures InLine(source, Ordered(repairs, order)) <==> AllApart(repairs)
  {
    var sorted := Ordered(repairs, order);
    if InLine(source, sorted) {
      forall i, j | 0 <= i < j < |repairs|
        ensures Apart(repairs[i], repairs[j])
      {
        assert i in order && j in order;
        var a :| 0 <= a < |order| && order[a] == i;
        var b :| 0 <= b < |order| && order[b] == j;
        if a < b {
          InLineEnds(source, sorted, a, b);
        } else {
          InLineEnds(source, sorted, b, a);
        }
      }
    }
    if AllApart(repairs) {
      forall i | 0 < i < |sorted|
        ensures sorted[i - 1].spanEnd <= sorted[i].spanStart
      {
        assert Precedes(repairs, order[i - 1], order[i]);
        assert Apart(repairs[order[i - 1]], repairs[order[i]]) by {
          assert order[i - 1] < order[i] || order[i] < order[i - 1];
        }
      }
    }
  }

  /** The first repair to arrive whose span is not in the source. */
  predicate FirstOutside(source: seq<u8>, repairs: seq<Repair>, i: nat) {
    && i < |repairs| && !InRange(source, repairs[i])
    && forall j :: 0 <= j < i ==> InRange(source, repairs[j])
  }

  /** The first place in the sorted order where a repair starts before its neighbour ends. */
  predicate FirstOverlap(sorted: seq<Repair>, i: nat) {
    && 0 < i < |sorted| && sorted[i].spanStart < sorted[i - 1].spanEnd
    && forall j :: 0 < j < i ==> sorted[j - 1].spanEnd <= sorted[j].spanStart
  }

  /** What applying repairs to a source gives, with the first error in the order the checks are made. */
  ghost predicate IsApplied(
    source: seq<u8>, repairs: seq<Repair>, order: seq<nat>, result: Result<seq<u8>, RepairError>)
    requires forall i :: 0 <= i < |order| ==> order[i] < |repairs|
  {
    var sorted := Ordered(repairs, order);
    if !AllInRange(source, repairs) then
      exists i: nat :: FirstOutside(source, repairs, i)
                  && result == Err(SpanOutOfRange(repairs[i].spanStart, repairs[i].spanEnd))
    else if !AllApart(repairs) then
      exists i: nat :: FirstOverlap(sorted, i) && result == Err(OverlappingRepairs(order[i - 1], order[i]))
    else
      InLine(source, sorted) && result == Ok(SpliceEach(source, sorted))
  }

  method CheckRanges(source: seq<u8>, repairs: seq<Repair>) returns (bad: Option<nat>)
    ensures bad.None? ==> AllInRange(source, repairs)
    ensures bad.Some? ==> FirstOutside(source, repairs, bad.value)
  {
    for i := 0 to |repairs|
      invariant forall j :: 0 <= j < i ==> InRange(source, repairs[j])
    {
      if !InRange(source, repairs[i]) {
        return Some(i);
      }
    }
    return None;
  }

  method CheckNeighbours(source: seq<u8>, sorted: seq<Repair>) returns (bad: Option<nat>)
    requires forall i :: 0 <= i < |sorted| ==> InRange(source, sorted[i])
    ensures bad.None? <==> InLine(source, sorted)
    ensures bad.Some? ==> FirstOverlap(sorted, bad.value)
  {
    if |sorted| > 0 {
      for i := 1 to |sorted|
        invariant forall j :: 0 < j < i ==> sorted[j - 1].spanEnd <= sorted[j].spanStart
      {
        if sorted[i].spanStart < sorted[i - 1].spanEnd {
          return Some(i);
        }
      }
    }
    return None;
  }

  method WriteRepairs(source: seq<u8>, repairs: seq<Repair>) returns (out: seq<u8>)
    requires InLine(source, repairs)
    ensures out == SpliceEach(source, repairs)
  {
    out := [];
    var cursor := 0;
    for i := 0 to |repairs|
      invariant InLine(source, repairs[..i])
      invariant cursor == CursorAfter(repairs[..i]) <= |source|
      invariant out == Written(source, repairs[..i])
    {
      var repair := repairs[i];
      assert repairs[..i + 1][..i] == repairs[..i];
      out := out + source[cursor..repair.spanStart];
      out := out + repair.prefix;
      out := out + source[repair.spanStart..repair.spanEnd];
      out := out + repair.suffix;
      cursor := repair.spanEnd;
    }
    assert repairs[..|repairs|] == repairs;
    OnePassSplicesEach(source, repairs);
    out := out + source[cursor..];
  }

  method ApplyRepairs(source: seq<u8>, repairs: seq<Repair>)
    returns (result: Result<seq<u8>, RepairError>, ghost order: seq<nat>)
    ensures StablySorted(repairs, order, |repairs|)
    ensures forall i :: 0 <= i < |order| ==> order[i] < |repairs|
    ensures IsApplied(source, repairs, order, result)
    ensures result.Ok? <==> AllInRange(source, repairs) && AllApart(repairs)
  {
    var sorted := SortBySpan(repairs);
    order := sorted;
    assert forall i :: 0 <= i < |order| ==> order[i] in order;
    var outside := CheckRanges(source, repairs);
    if outside.Some? {
      return Err(SpanOutOfRange(repairs[outside.value].spanStart, repairs[outside.value].spanEnd)), order;
    }
    NeighboursSuffice(source, repairs, order);
    var overlap := CheckNeighbours(source, Ordered(repairs, sorted));
    if overlap.Some? {
      return Err(OverlappingRepairs(sorted[overlap.value - 1], sorted[overlap.value])), order;
    }
    var out := WriteRepairs(source, Ordered(repairs, sorted));
    result := Ok(out);
  }

  // ---- What the source keeps -----------------------------------------------------------------------

  /** A byte of an output, and whether a repair added it. */
  datatype Marked = Marked(byte: u8, added: bool)

  function MarkAll(bytes: seq<u8>, added: bool): (r: seq<Marked>)
    ensures |r| == |bytes|
  {
    seq(|bytes|, i requires 0 <= i < |bytes| => Marked(bytes[i], added))
  }

  /** One repair applied by itself, what it adds marked. */
  function MarkedSplice(source: seq<Marked>, repair: Repair): seq<Marked>
    requires repair.spanStart <= repair.spanEnd <= |source|
  {
    source[..repair.spanStart] + MarkAll(repair.prefix, true) + source[repair.spanStart..repair.spanEnd]
      + MarkAll(repair.suffix, true) + source[repair.spanEnd..]
  }

  function BytesOf(marked: seq<Marked>): (r: seq<u8>)
    ensures |r| == |marked|
  {
    seq(|marked|, i requires 0 <= i < |marked| => marked[i].byte)
  }

  /** The bytes no repair added, in order. */
  function Kept(marked: seq<Marked>): seq<u8> {
    if marked == [] then []
    else
      var last := |marked| - 1;
      Kept(marked[..last]) + (if marked[last].added then [] else [marked[last].byte])
  }

  lemma {:induction false} KeptConcat(first: seq<Marked>, second: seq<Marked>)
    ensures Kept(first + second) == Kept(first) + Kept(second)
    decreases |second|
  {
    if second == [] {
      assert first + second == first;
    } else {
      var last := |second| - 1;
      assert (first + second)[..|first + second| - 1] == first + second[..last];
      KeptConcat(first, second[..last]);
    }
  }

  lemma {:induction false} KeptOfMarks(bytes: seq<u8>, added: bool)
    ensures Kept(MarkAll(bytes, added)) == if added then [] else bytes
  {
    if bytes != [] {
      var last := |bytes| - 1;
      assert MarkAll(bytes, added)[..last] == MarkAll(bytes[..last], added);
      KeptOfMarks(bytes[..last], added);
      assert bytes == bytes[..last] + [bytes[last]];
    }
  }

  lemma KeptOfFive(a: seq<Marked>, b: seq<Marked>, c: seq<Marked>, d: seq<Marked>, e: seq<Marked>)
    ensures Kept(a + b + c + d + e) == Kept(a) + Kept(b) + Kept(c) + Kept(d) + Kept(e)
  {
    KeptConcat(a, b);
    KeptConcat(a + b, c);
    KeptConcat(a + b + c, d);
    KeptConcat(a + b + c + d, e);
  }

  lemma KeptOfThree(a: seq<Marked>, b: seq<Marked>, c: seq<Marked>)
    ensures Kept(a + b + c) == Kept(a) + Kept(b) + Kept(c)
  {
    KeptConcat(a, b);
    KeptConcat(a + b, c);
  }

  lemma BytesOfFive(a: seq<Marked>, b: seq<Marked>, c: seq<Marked>, d: seq<Marked>, e: seq<Marked>)
    ensures BytesOf(a + b + c + d + e) == BytesOf(a) + BytesOf(b) + BytesOf(c) + BytesOf(d) + BytesOf(e)
  {
    BytesConcat(a, b);
    BytesConcat(a + b, c);
    BytesConcat(a + b + c, d);
    BytesConcat(a + b + c + d, e);
  }

  lemma BytesConcat(a: seq<Marked>, b: seq<Marked>)
    ensures BytesOf(a + b) == BytesOf(a) + BytesOf(b)
  {
  }

  lemma BytesOfParts(source: seq<Marked>, from: nat, to: nat)
    requires from <= to <= |source|
    ensures BytesOf(source[..from]) == BytesOf(source)[..from]
    ensures BytesOf(source[from..to]) == BytesOf(source)[from..to]
    ensures BytesOf(source[to..]) == BytesOf(source)[to..]
  {
  }

  lemma BytesOfMarks(bytes: seq<u8>, added: bool)
    ensures BytesOf(MarkAll(bytes, added)) == bytes
  {
  }

  lemma MarkedSpliceWrites(source: seq<Marked>, repair: Repair)
    requires repair.spanStart <= repair.spanEnd <= |source|
    ensures BytesOf(MarkedSplice(source, repair)) == Splice(BytesOf(source), repair)
  {
    BytesOfFive(
      source[..repair.spanStart], MarkAll(repair.prefix, true), source[repair.spanStart..repair.spanEnd],
      MarkAll(repair.suffix, true), source[repair.spanEnd..]);
    BytesOfParts(source, repair.spanStart, repair.spanEnd);
    BytesOfMarks(repair.prefix, true);
    BytesOfMarks(repair.suffix, true);
  }

  lemma DropEmpty(a: seq<u8>, b: seq<u8>, c: seq<u8>)
    ensures a + [] + b + [] + c == a + b + c
  {
  }

  lemma AddedDropOut(a: seq<Marked>, b: seq<Marked>, c: seq<Marked>, d: seq<Marked>, e: seq<Marked>)
    requires Kept(b) == [] && Kept(d) == []
    ensures Kept(a + b + c + d + e) == Kept(a + c + e)
  {
    KeptOfFive(a, b, c, d, e);
    KeptOfThree(a, c, e);
    DropEmpty(Kept(a), Kept(c), Kept(e));
  }

  lemma InThree(source: seq<Marked>, from: nat, to: nat)
    requires from <= to <= |source|
    ensures source[..from] + source[from..to] + source[to..] == source
  {
  }

  lemma MarkedSpliceKeeps(source: seq<Marked>, repair: Repair)
    requires repair.spanStart <= repair.spanEnd <= |source|
    ensures Kept(MarkedSplice(source, repair)) == Kept(source)
  {
    KeptOfMarks(repair.prefix, true);
    KeptOfMarks(repair.suffix, true);
    AddedDropOut(
      source[..repair.spanStart], MarkAll(repair.prefix, true), source[repair.spanStart..repair.spanEnd],
      MarkAll(repair.suffix, true), source[repair.spanEnd..]);
    InThree(source, repair.spanStart, repair.spanEnd);
  }

  /** What splicing each repair writes, with just the prefixes and suffixes marked as added. */
  function MarkedSpliceEach(source: seq<Marked>, repairs: seq<Repair>): seq<Marked>
    requires InLine(BytesOf(source), repairs)
    decreases |repairs|
  {
    if repairs == [] then source
    else
      var last := repairs[|repairs| - 1];
      EarlierStayInLine(BytesOf(source), repairs);
      MarkedSpliceWrites(source, last);
      MarkedSpliceEach(MarkedSplice(source, last), repairs[..|repairs| - 1])
  }

  lemma {:induction false} MarkingKeeps(source: seq<Marked>, repairs: seq<Repair>)
    requires InLine(BytesOf(source), repairs)
    ensures BytesOf(MarkedSpliceEach(source, repairs)) == SpliceEach(BytesOf(source), repairs)
    ensures Kept(MarkedSpliceEach(source, repairs)) == Kept(source)
    decreases |repairs|
  {
    if repairs != [] {
      var last := repairs[|repairs| - 1];
      MarkedSpliceKeeps(source, last);
      MarkedSpliceWrites(source, last);
      EarlierStayInLine(BytesOf(source), repairs);
      MarkingKeeps(MarkedSplice(source, last), repairs[..|repairs| - 1]);
    }
  }

  /** The output without the bytes the repairs added is the source, byte for byte. */
  lemma SourceBytesSurvive(source: seq<u8>, repairs: seq<Repair>)
    requires InLine(source, repairs)
    ensures BytesOf(MarkAll(source, false)) == source
    ensures var output := MarkedSpliceEach(MarkAll(source, false), repairs);
            BytesOf(output) == SpliceEach(source, repairs) && Kept(output) == source
  {
    BytesOfMarks(source, false);
    KeptOfMarks(source, false);
    MarkingKeeps(MarkAll(source, false), repairs);
  }
}
