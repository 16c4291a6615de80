/** The structural checks on ranges and strings, and what passing them means. */
module Validate {
  import opened Basics
  import opened Facts

  datatype Violation =
    | StringOffsetsNotMonotonic(index: nat)
    | StringOffsetOutOfRange(index: nat)
    | StringBlobNotFullyCovered(covered: nat, length: nat)
    | FieldRangeMismatch(owner: nat)
    | FieldsNotGroupedByOwner(row: nat)
    | ParameterRangeMismatch(owner: nat)

  // ---- Ranges -----------------------------------------------------------------------------------

  /** Where the range of `owner` ends: at the next one's start, or with the rows. */
  predicate EndsAtNext(starts: seq<u32>, counts: seq<u32>, rows: nat, owner: nat)
    requires owner < |starts| == |counts|
  {
    (starts[owner] as int) + counts[owner] == if owner + 1 < |starts| then starts[owner + 1] as int else rows
  }

  /** Consecutive ranges from zero that end with the rows. */
  predicate Tiles(starts: seq<u32>, counts: seq<u32>, rows: nat) {
    && |starts| == |counts|
    && (if starts == [] then rows == 0 else starts[0] == 0)
    && forall owner :: 0 <= owner < |starts| ==> EndsAtNext(starts, counts, rows, owner)
  }

  predicate InRangeOf(starts: seq<u32>, counts: seq<u32>, owner: nat, row: nat)
    requires owner < |starts| == |counts|
  {
    starts[owner] <= row < (starts[owner] as int) + counts[owner]
  }

  lemma {:induction false} StartsAscend(starts: seq<u32>, counts: seq<u32>, rows: nat, low: nat, high: nat)
    requires Tiles(starts, counts, rows) && low < high < |starts|
    ensures (starts[low] as int) + counts[low] <= starts[high]
    decreases high - low
  {
    assert EndsAtNext(starts, counts, rows, low);
    if low + 1 < high {
      StartsAscend(starts, counts, rows, low + 1, high);
    }
  }

  lemma {:induction false} RangesStayInside(starts: seq<u32>, counts: seq<u32>, rows: nat, owner: nat)
    requires Tiles(starts, counts, rows) && owner < |starts|
    ensures (starts[owner] as int) + counts[owner] <= rows
    decreases |starts| - owner
  {
    assert EndsAtNext(starts, counts, rows, owner);
    if owner + 1 < |starts| {
      RangesStayInside(starts, counts, rows, owner + 1);
    }
  }

  lemma {:induction false} SomeRangeHolds(starts: seq<u32>, counts: seq<u32>, rows: nat, from: nat, row: nat)
    returns (owner: nat)
    requires Tiles(starts, counts, rows) && from < |starts| && starts[from] <= row < rows
    ensures from <= owner < |starts| && InRangeOf(starts, counts, owner, row)
    decreases |starts| - from
  {
    assert EndsAtNext(starts, counts, rows, from);
    if InRangeOf(starts, counts, from, row) {
      owner := from;
    } else {
      owner := SomeRangeHolds(starts, counts, rows, from + 1, row);
    }
  }

  /** A row exists exactly when some range holds it, and then only one does. */
  lemma TilingMeansOneOwner(starts: seq<u32>, counts: seq<u32>, rows: nat, row: nat)
    requires Tiles(starts, counts, rows)
    ensures row < rows <==> exists owner: nat :: owner < |starts| && InRangeOf(starts, counts, owner, row)
    ensures forall a: nat, b: nat ::
              a < |starts| && b < |starts| && InRangeOf(starts, counts, a, row) && InRangeOf(starts, counts, b, row)
              ==> a == b
  {
    if row < rows {
      var owner := SomeRangeHolds(starts, counts, rows, 0, row);
    }
    forall owner: nat | owner < |starts| && InRangeOf(starts, counts, owner, row)
      ensures row < rows
    {
      assert EndsAtNext(starts, counts, rows, owner);
      assert EndsAtNext(starts, counts, rows, |starts| - 1);
      if owner < |starts| - 1 {
        StartsAscend(starts, counts, rows, owner, |starts| - 1);
      }
    }
    forall a: nat, b: nat | a < |starts| && b < |starts|
      && InRangeOf(starts, counts, a, row) && InRangeOf(starts, counts, b, row)
      ensures a == b
    {
      if a < b {
        StartsAscend(starts, counts, rows, a, b);
      } else if b < a {
        StartsAscend(starts, counts, rows, b, a);
      }
    }
  }

  /** Where the ranges of the first `owners` owners end. */
  function EndOf(starts: seq<u32>, counts: seq<u32>, owners: nat): nat
    requires owners <= |starts| && owners <= |counts|
  {
    if owners == 0 then 0 else (starts[owners - 1] as int) + counts[owners - 1]
  }

  lemma TilesNext(starts: seq<u32>, counts: seq<u32>, owner: nat)
    requires owner < |starts| && owner < |counts|
    ensures Tiles(starts[..owner + 1], counts[..owner + 1], EndOf(starts, counts, owner + 1)) <==>
              Tiles(starts[..owner], counts[..owner], EndOf(starts, counts, owner))
              && starts[owner] == EndOf(starts, counts, owner)
  {
    var end, next := EndOf(starts, counts, owner), EndOf(starts, counts, owner + 1);
    if Tiles(starts[..owner + 1], counts[..owner + 1], next) {
      if owner > 0 {
        assert EndsAtNext(starts[..owner + 1], counts[..owner + 1], next, owner - 1);
      }
      forall o | 0 <= o < owner
        ensures EndsAtNext(starts[..owner], counts[..owner], end, o)
      {
        assert EndsAtNext(starts[..owner + 1], counts[..owner + 1], next, o);
      }
    }
    if Tiles(starts[..owner], counts[..owner], end) && starts[owner] == end {
      var longer, longerCounts := starts[..owner + 1], counts[..owner + 1];
      forall o | 0 <= o < |longer|
        ensures EndsAtNext(longer, longerCounts, next, o)
      {
        if o < owner {
          assert EndsAtNext(starts[..owner], counts[..owner], end, o);
        }
      }
    }
  }

  lemma TilesEnd(starts: seq<u32>, counts: seq<u32>, rows: nat)
    requires |starts| == |counts|
    ensures Tiles(starts, counts, rows) <==>
              Tiles(starts, counts, EndOf(starts, counts, |starts|)) && rows == EndOf(starts, counts, |starts|)
  {
    var last := |starts| - 1;
    if Tiles(starts, counts, rows) && last >= 0 {
      assert EndsAtNext(starts, counts, rows, last);
    }
  }

  lemma OverflowNeverTiles(starts: seq<u32>, counts: seq<u32>, rows: nat, owner: nat)
    requires owner < |starts| == |counts| && (starts[owner] as int) + counts[owner] >= 0x1_0000_0000
    requires rows < 0x1_0000_0000
    ensures !Tiles(starts, counts, rows)
  {
    assert EndsAtNext(starts, counts, rows, owner)
           <==> owner + 1 == |starts| && (starts[owner] as int) + counts[owner] == rows;
  }

  /** The walk every range check makes: each start against where the range before it ended. */
  method WalkRanges(starts: seq<u32>, counts: seq<u32>, owners: nat, rows: nat)
    returns (mismatches: seq<nat>, finished: bool)
    ensures |starts| == |counts| == owners ==>
              (mismatches == [] <==> Tiles(starts, counts, rows) && rows < 0x1_0000_0000)
    ensures |starts| == |counts| == owners && mismatches == [] ==> finished
  {
    mismatches, finished := [], false;
    var expected: u32 := 0;
    for owner := 0 to owners
      invariant owner <= |starts| && owner <= |counts| && expected == EndOf(starts, counts, owner)
      invariant mismatches == [] <==> Tiles(starts[..owner], counts[..owner], expected)
    {
      if owner >= |starts| || owner >= |counts| {
        return;
      }
      TilesNext(starts, counts, owner);
      var start: int, count: int := starts[owner], counts[owner];
      if start != expected {
        mismatches := mismatches + [owner];
      }
      if start + count >= 0x1_0000_0000 {
        mismatches := mismatches + [owner];
        if |starts| == |counts| && rows < 0x1_0000_0000 {
          OverflowNeverTiles(starts, counts, rows, owner);
        }
        return;
      }
      expected := start + count;
    }
    if expected != rows {
      mismatches := mismatches + [owners];
    }
    finished := true;
    if |starts| == |counts| == owners {
      assert starts[..owners] == starts && counts[..owners] == counts;
      TilesEnd(starts, counts, rows);
    }
  }

  predicate GroupedByOwner(owner: seq<StructId>) {
    forall row :: 0 < row < |owner| ==> owner[row - 1] <= owner[row]
  }

  predicate FieldColumnsMatch(tables: Tables) {
    |tables.structs.fieldStart| == |tables.structs.fieldCount| == StructCount(tables.structs)
  }

  predicate ParameterColumnsMatch(tables: Tables) {
    |tables.functions.parameterStart| == |tables.functions.parameterCount| == FunctionCount(tables.functions)
  }

  /** Every field is in one struct's range, and the fields come struct by struct. */
  ghost predicate FieldRangesHold(tables: Tables) {
    && Tiles(tables.structs.fieldStart, tables.structs.fieldCount, FieldCount(tables.fields))
    && FieldCount(tables.fields) < 0x1_0000_0000
    && GroupedByOwner(tables.fields.owner)
  }

  /** Every parameter is in one function's range. */
  ghost predicate ParameterRangesHold(tables: Tables) {
    && Tiles(tables.functions.parameterStart, tables.functions.parameterCount, ParameterCount(tables.parameters))
    && ParameterCount(tables.parameters) < 0x1_0000_0000
  }

  method CheckFieldRanges(tables: Tables) returns (violations: seq<Violation>)
    ensures FieldColumnsMatch(tables) ==> (violations == [] <==> FieldRangesHold(tables))
  {
    var owners, fields := StructCount(tables.structs), FieldCount(tables.fields);
    var mismatches, finished := WalkRanges(tables.structs.fieldStart, tables.structs.fieldCount, owners, fields);
    violations := seq(|mismatches|, i requires 0 <= i < |mismatches| => FieldRangeMismatch(mismatches[i]));
    if !finished {
      return;
    }
    if fields > 0 {
      for row := 1 to fields
        invariant violations == [] <==>
          mismatches == [] && forall r :: 0 < r < row ==> tables.fields.owner[r - 1] <= tables.fields.owner[r]
      {
        if tables.fields.owner[row] < tables.fields.owner[row - 1] {
          violations := violations + [FieldsNotGroupedByOwner(row)];
        }
      }
    }
  }

  method CheckParameterRanges(tables: Tables) returns (violations: seq<Violation>)
    ensures ParameterColumnsMatch(tables) ==> (violations == [] <==> ParameterRangesHold(tables))
  {
    var mismatches, _ := WalkRanges(
      tables.functions.parameterStart, tables.functions.parameterCount, FunctionCount(tables.functions),
      ParameterCount(tables.parameters));
    violations := seq(|mismatches|, i requires 0 <= i < |mismatches| => ParameterRangeMismatch(mismatches[i]));
  }

  // ---- Strings ----------------------------------------------------------------------------------

  /** Offsets from zero, never going back, the last of them where the bytes end. */
  predicate Sound(strings: Strings) {
    var offsets := strings.offsets;
    if offsets == [] then strings.bytes == []
    else
      && offsets[0] == 0
      && (forall i :: 0 < i < |offsets| ==> offsets[i - 1] <= offsets[i])
      && offsets[|offsets| - 1] == |strings.bytes|
  }

  lemma {:induction false} OffsetsStayInside(strings: Strings, i: nat)
    requires Sound(strings) && i < |strings.offsets|
    ensures strings.offsets[i] <= |strings.bytes|
    decreases |strings.offsets| - i
  {
    if i + 1 < |strings.offsets| {
      OffsetsStayInside(strings, i + 1);
    }
  }

  method CheckStrings(strings: Strings) returns (violations: seq<Violation>)
    ensures violations == [] <==> Sound(strings)
  {
    violations := [];
    var offsets := strings.offsets;
    if offsets == [] {
      if strings.bytes != [] {
        violations := [StringBlobNotFullyCovered(0, |strings.bytes|)];
      }
      return;
    }
    if offsets[0] != 0 {
      violations := violations + [StringOffsetsNotMonotonic(0)];
    }
    for index := 1 to |offsets|
      invariant violations == [] <==>
        && offsets[0] == 0
        && forall i :: 0 < i < index ==> offsets[i - 1] <= offsets[i] <= |strings.bytes|
    {
      if offsets[index] < offsets[index - 1] {
        violations := violations + [StringOffsetsNotMonotonic(index)];
      }
      if offsets[index] > |strings.bytes| {
        violations := violations + [StringOffsetOutOfRange(index)];
      }
    }
    var covered := offsets[|offsets| - 1];
    if covered != |strings.bytes| {
      violations := violations + [StringBlobNotFullyCovered(covered, |strings.bytes|)];
    }
    if Sound(strings) {
      forall i | 0 <= i < |offsets|
        ensures offsets[i] <= |strings.bytes|
      {
        OffsetsStayInside(strings, i);
      }
    }
  }

  /** The first `count` strings, one after another. */
  function FirstStrings(strings: Strings, count: nat): seq<u8>
    requires count <= StringCount(strings) <= 0x1_0000_0000
  {
    if count == 0 then [] else FirstStrings(strings, count - 1) + StringBytes(strings, count - 1)
  }

  lemma {:induction false} FirstStringsArePrefix(strings: Strings, count: nat)
    requires Sound(strings) && count <= StringCount(strings) <= 0x1_0000_0000 && strings.offsets != []
    ensures strings.offsets[count] <= |strings.bytes|
    ensures FirstStrings(strings, count) == strings.bytes[..strings.offsets[count]]
  {
    OffsetsStayInside(strings, count);
    if count > 0 {
      FirstStringsArePrefix(strings, count - 1);
      var start, end := strings.offsets[count - 1], strings.offsets[count];
      assert strings.bytes[..end] == strings.bytes[..start] + strings.bytes[start..end];
    }
  }

  /** Sound strings are the blob and nothing but the blob. */
  lemma SoundStringsCoverTheBlob(strings: Strings)
    requires Sound(strings) && StringCount(strings) <= 0x1_0000_0000
    ensures FirstStrings(strings, StringCount(strings)) == strings.bytes
  {
    if strings.offsets != [] {
      FirstStringsArePrefix(strings, StringCount(strings));
    }
  }

  // ---- Everything a set of tables is checked for ----------------------------------------------------

  predicate LengthsMatch(tables: Tables) {
    && ModuleLengthsMatch(tables) && TypeLengthsMatch(tables.types) && StructLengthsMatch(tables)
    && FunctionLengthsMatch(tables) && FlowLengthsMatch(tables) && ExpressionLengthsMatch(tables.expressions)
  }

  predicate ModuleLengthsMatch(tables: Tables) {
    var modules, artifacts := tables.modules, tables.artifacts;
    && |modules.path| == |modules.unresolvedStart| == |modules.unresolvedCount| == |modules.name|
    && |tables.unresolvedImports.name| == |tables.unresolvedImports.owner|
    && |artifacts.root| == |artifacts.kind| == |artifacts.name|
  }

  predicate TypeLengthsMatch(types: Types) {
    && |types.element| == |types.count| == |types.module_| == |types.name| == |types.kind|
    && |types.size| == |types.alignment| == |types.bitWidth| == |types.flags| == |types.kind|
  }

  predicate StructLengthsMatch(tables: Tables) {
    var structs, fields := tables.structs, tables.fields;
    && |structs.module_| == |structs.typeId| == |structs.fieldStart| == |structs.fieldCount| == |structs.name|
    && |structs.size| == |structs.alignment| == |structs.flags| == |structs.deinit| == |structs.kind| == |structs.name|
    && |fields.name| == |fields.fieldType| == |fields.offset| == |fields.owner|
  }

  predicate FunctionLengthsMatch(tables: Tables) {
    var functions, parameters := tables.functions, tables.parameters;
    && |functions.module_| == |functions.owner| == |functions.parameterStart| == |functions.name|
    && |functions.parameterCount| == |functions.returns_| == |functions.errorSet| == |functions.name|
    && |functions.flags| == |functions.line| == |functions.body| == |functions.name|
    && |parameters.name| == |parameters.parameterType| == |parameters.flags| == |parameters.owner|
  }

  predicate FlowLengthsMatch(tables: Tables) {
    var sources, arguments := tables.allocatorSources, tables.callArguments;
    var operations, assignments := tables.memoryOperations, tables.fieldAssignments;
    && |sources.function_| == |sources.parameterIndex| == |sources.kind|
    && |tables.calls.callee| == |tables.calls.caller|
    && |arguments.parameterIndex| == |arguments.source| == |arguments.call|
    && |operations.kind| == |operations.allocator| == |operations.place| == |operations.placeField|
    && |operations.kind| == |operations.function_|
    && |assignments.function_| == |assignments.source| == |assignments.memoryOperation| == |assignments.field|
    && |assignments.expression| == |assignments.line| == |assignments.field|
  }

  predicate ExpressionLengthsMatch(expressions: Expressions) {
    && |expressions.line| == |expressions.text| == |expressions.parameter| == |expressions.result|
    && |expressions.field| == |expressions.childStart| == |expressions.childCount| == |expressions.line|
    && |expressions.line| == |expressions.kind|
  }

  /** Every handle of a column names a row that exists. */
  predicate AllName(column: seq<u32>, rows: nat) {
    forall row :: 0 <= row < |column| ==> column[row] < rows
  }

  /** Every handle of a column names a row that exists, or is the absent one. */
  predicate AllNameOrAbsent(column: seq<u32>, rows: nat) {
    forall row :: 0 <= row < |column| ==> column[row] == NO_INDEX || column[row] < rows
  }

  predicate TypeHandlesHold(tables: Tables) {
    var strings, modules := StringCount(tables.strings), |tables.modules.name|;
    && AllNameOrAbsent(tables.modules.name, strings) && AllNameOrAbsent(tables.modules.path, strings)
    && AllName(tables.unresolvedImports.owner, modules) && AllName(tables.unresolvedImports.name, strings)
    && AllName(tables.artifacts.name, strings) && AllNameOrAbsent(tables.artifacts.root, modules)
    && AllName(tables.types.module_, modules) && AllNameOrAbsent(tables.types.element, |tables.types.kind|)
    && AllNameOrAbsent(tables.types.name, strings)
    && AllNameOrAbsent([tables.target], strings)
  }

  predicate DeclarationHandlesHold(tables: Tables) {
    var structs, functions, parameters := tables.structs, tables.functions, tables.parameters;
    var strings, modules, types := StringCount(tables.strings), |tables.modules.name|, |tables.types.kind|;
    && AllName(structs.module_, modules) && AllName(functions.module_, modules)
    && AllName(structs.name, strings) && AllName(structs.typeId, types)
    && AllNameOrAbsent(structs.deinit, FunctionCount(functions))
    && AllName(tables.fields.owner, StructCount(structs)) && AllName(tables.fields.name, strings)
    && AllName(tables.fields.fieldType, types)
    && AllName(functions.name, strings) && AllNameOrAbsent(functions.owner, StructCount(structs))
    && AllNameOrAbsent(functions.returns_, types) && AllNameOrAbsent(functions.errorSet, StructCount(structs))
    && AllName(parameters.owner, FunctionCount(functions)) && AllName(parameters.name, strings)
    && AllName(parameters.parameterType, types)
  }

  predicate FlowHandlesHold(tables: Tables) {
    var operations, assignments := tables.memoryOperations, tables.fieldAssignments;
    var functions, fields := FunctionCount(tables.functions), FieldCount(tables.fields);
    var sources := |tables.allocatorSources.kind|;
    && AllNameOrAbsent(tables.allocatorSources.function_, functions)
    && AllName(tables.calls.caller, functions) && AllName(tables.calls.callee, functions)
    && AllName(tables.callArguments.call, CallCount(tables.calls)) && AllName(tables.callArguments.source, sources)
    && AllName(operations.function_, functions) && AllNameOrAbsent(operations.allocator, sources)
    && AllNameOrAbsent(operations.placeField, fields)
    && AllName(assignments.field, fields) && AllName(assignments.function_, functions)
    && AllNameOrAbsent(assignments.memoryOperation, MemoryOperationCount(operations))
  }

  ghost predicate ModuleRangesHold(tables: Tables) {
    var modules, imports := tables.modules, |tables.unresolvedImports.owner|;
    if modules.name == [] then StructCount(tables.structs) == 0 && FunctionCount(tables.functions) == 0
    else Tiles(modules.unresolvedStart, modules.unresolvedCount, imports) && imports < 0x1_0000_0000
  }

  predicate NamesAParameter(tables: Tables, func: FunctionId, parameterIndex: u32) {
    func < |tables.functions.parameterCount| && parameterIndex < tables.functions.parameterCount[func]
  }

  predicate ParameterIndicesHold(tables: Tables) {
    var sources, arguments := tables.allocatorSources, tables.callArguments;
    && (forall row :: 0 <= row < |sources.kind| && sources.kind[row] == ParameterSource
                      && row < |sources.function_| && row < |sources.parameterIndex| ==>
          NamesAParameter(tables, sources.function_[row], sources.parameterIndex[row]))
    && (forall row :: 0 <= row < |arguments.call| && row < |arguments.parameterIndex|
                      && arguments.call[row] < |tables.calls.callee| ==>
          NamesAParameter(tables, tables.calls.callee[arguments.call[row]], arguments.parameterIndex[row]))
  }

  /** An operation on a field of a parameter says which field. */
  predicate PlacesHold(tables: Tables) {
    var operations := tables.memoryOperations;
    forall row :: 0 <= row < |operations.place| && operations.place[row] == FieldOfParameter ==>
      row < |operations.placeField| && operations.placeField[row] != NO_INDEX
  }

  predicate CallsComeByCaller(calls: Calls) {
    forall row :: 0 < row < |calls.caller| ==> calls.caller[row - 1] <= calls.caller[row]
  }

  /** What every check together lets through. No pass runs over tables that do not. */
  ghost predicate Passes(tables: Tables) {
    && LengthsMatch(tables) && Sound(tables.strings)
    && TypeHandlesHold(tables) && DeclarationHandlesHold(tables) && FlowHandlesHold(tables)
    && FieldRangesHold(tables) && ParameterRangesHold(tables) && ModuleRangesHold(tables)
    && ParameterIndicesHold(tables) && PlacesHold(tables) && CallsComeByCaller(tables.calls)
  }
}
