/** Where each number of a fact file is, and which number stands for what. */
module WireLayout {
  import opened Basics
  import opened Facts
  import opened WireTables
  import opened Wire

  // ---- Words --------------------------------------------------------------------------------------

  function Power(base: nat, exponent: nat): nat {
    if exponent == 0 then 1 else base * Power(base, exponent - 1)
  }

  /** Four bytes for a number, each worth 256 times the one before it. */
  lemma WordsByPlace(value: u32)
    ensures forall i: nat :: i < 4 ==> Power(256, i) > 0 && Le(value)[i] == value / Power(256, i) % 256
  {
    LeIsLeBytes(value);
    assert Power(256, 0) == 1 && Power(256, 1) == 256 && Power(256, 2) == 65536 && Power(256, 3) == 16777216;
    assert value / 16777216 % 256 == value / 16777216;
  }

  // ---- Enumerations -------------------------------------------------------------------------------

  /** The numbers are the places of the kinds in a list of all of them. */
  ghost predicate AreNumbered<T(!new)>(kinds: seq<T>, raw: T -> u32, from: u32 -> T) {
    && (forall i: u32 :: i < |kinds| ==> raw(kinds[i]) == i && from(i) == kinds[i])
    && (forall kind: T :: raw(kind) < |kinds|)
  }

  lemma ArtifactKindsAreNumbered()
    ensures AreNumbered([Executable, Library, Test], ArtifactKindRaw, ArtifactKindFrom)
  {
  }

  lemma TypeKindsAreNumbered()
    ensures AreNumbered(
              [Void, Integer, Bool, Slice, Pointer, TypeKind.Struct, Opaque, Optional, Array, Float],
              TypeKindRaw, TypeKindFrom)
  {
  }

  lemma ContainerKindsAreNumbered()
    ensures AreNumbered(
              [StructContainer, EnumContainer, UnionContainer, ErrorSet], ContainerKindRaw, ContainerKindFrom)
  {
  }

  lemma AllocatorSourceKindsAreNumbered()
    ensures AreNumbered(
              [GlobalSource, ArenaSource, ParameterSource, UnknownSource],
              AllocatorSourceKindRaw, AllocatorSourceKindFrom)
  {
  }

  lemma MemoryOperationKindsAreNumbered()
    ensures AreNumbered([Allocate, Free, Resize], MemoryOperationKindRaw, MemoryOperationKindFrom)
  {
  }

  lemma PlaceKindsAreNumbered()
    ensures AreNumbered([FieldOfParameter, Local, UnknownPlace], PlaceKindRaw, PlaceKindFrom)
  {
  }

  lemma AssignmentSourcesAreNumbered()
    ensures AreNumbered(
              [FromAllocation, FromParameter, FromLiteral, FromUnknown], AssignmentSourceRaw, AssignmentSourceFrom)
  {
  }

  ghost predicate NumberedFrom(kinds: seq<ExpressionKind>, first: nat) {
    forall i: nat :: i < |kinds| && first + i < 27 ==>
      ExpressionKindRaw(kinds[i]) == first + i && ExpressionKindFrom(first + i) == kinds[i]
  }

  lemma FirstNineKinds()
    ensures NumberedFrom(
              [ExpressionKind.Literal, Parameter, Length, Cast, Allocation,
               StructLiteral, Unsupported, Null, Identifier], 0)
  {
  }

  lemma NextNineKinds()
    ensures NumberedFrom([ExpressionKind.Field, Binary, Unary, Index, Call, Branch, Block, Return, Let], 9)
  {
  }

  lemma LastNineKinds()
    ensures NumberedFrom([Assign, Group, Question, Method, While, For, Match, Arm, Wrap], 18)
  {
  }

  /** The columns that hold kinds, what each is called when it holds a number that is none, and how many there are. */
  lemma KindColumnsAre()
    ensures ARTIFACTS_SCHEMA[2] == EnumColumn("artifacts.kind", 3)
    ensures TYPES_SCHEMA[0] == EnumColumn("types.kind", 10)
    ensures STRUCTS_SCHEMA[9] == EnumColumn("structs.kind", 4)
    ensures ALLOCATOR_SOURCES_SCHEMA[0] == EnumColumn("allocator_sources.kind", 4)
    ensures MEMORY_OPERATIONS_SCHEMA[1] == EnumColumn("memory_operations.kind", 3)
    ensures MEMORY_OPERATIONS_SCHEMA[3] == EnumColumn("memory_operations.place", 3)
    ensures EXPRESSIONS_SCHEMA[0] == EnumColumn("expressions.kind", 27)
    ensures FIELD_ASSIGNMENTS_SCHEMA[2] == EnumColumn("field_assignments.source", 4)
  {
  }

  // ---- Columns ------------------------------------------------------------------------------------

  /** The columns of the tables of the program as a whole, in file order. */
  function ModuleColumns(tables: Tables): seq<Column> {
    [Bytes(tables.strings.bytes), Words(tables.strings.offsets),
     Words(tables.modules.name), Words(tables.modules.path),
     Words(tables.modules.unresolvedStart), Words(tables.modules.unresolvedCount),
     Words(tables.unresolvedImports.owner), Words(tables.unresolvedImports.name),
     Words(tables.artifacts.name), Words(tables.artifacts.root),
     Words(RawOf(tables.artifacts.kind, ArtifactKindRaw))]
  }

  function TypeColumns(tables: Tables): seq<Column> {
    [Words(RawOf(tables.types.kind, TypeKindRaw)), Words(tables.types.element), Words(tables.types.count),
     Words(tables.types.module_), Words(tables.types.name), Words(tables.types.size), Words(tables.types.alignment),
     Words(tables.types.bitWidth), Words(tables.types.flags),
     Words(tables.structs.name), Words(tables.structs.module_), Words(tables.structs.typeId),
     Words(tables.structs.fieldStart), Words(tables.structs.fieldCount), Words(tables.structs.size),
     Words(tables.structs.alignment), Words(tables.structs.flags), Words(tables.structs.deinit),
     Words(RawOf(tables.structs.kind, ContainerKindRaw)),
     Words(tables.fields.owner), Words(tables.fields.name), Words(tables.fields.fieldType),
     Words(tables.fields.offset)]
  }

  function FunctionColumns(tables: Tables): seq<Column> {
    [Words(tables.functions.name), Words(tables.functions.module_), Words(tables.functions.owner),
     Words(tables.functions.parameterStart), Words(tables.functions.parameterCount), Words(tables.functions.returns_),
     Words(tables.functions.errorSet), Words(tables.functions.flags), Words(tables.functions.line),
     Words(tables.functions.body),
     Words(tables.parameters.owner), Words(tables.parameters.name), Words(tables.parameters.parameterType),
     Words(tables.parameters.flags)]
  }

  function FlowColumns(tables: Tables): seq<Column> {
    [Words(RawOf(tables.allocatorSources.kind, AllocatorSourceKindRaw)), Words(tables.allocatorSources.function_),
     Words(tables.allocatorSources.parameterIndex),
     Words(tables.calls.caller), Words(tables.calls.callee),
     Words(tables.callArguments.call), Words(tables.callArguments.parameterIndex), Words(tables.callArguments.source),
     Words(tables.memoryOperations.function_), Words(RawOf(tables.memoryOperations.kind, MemoryOperationKindRaw)),
     Words(tables.memoryOperations.allocator), Words(RawOf(tables.memoryOperations.place, PlaceKindRaw)),
     Words(tables.memoryOperations.placeField)]
  }

  function ExpressionColumns(tables: Tables): seq<Column> {
    [Words(RawOf(tables.expressions.kind, ExpressionKindRaw)), Words(tables.expressions.text),
     Words(tables.expressions.parameter), Words(tables.expressions.result), Words(tables.expressions.field),
     Words(tables.expressions.line), Words(tables.expressions.childStart), Words(tables.expressions.childCount),
     Words(tables.expressions.children),
     Words(tables.fieldAssignments.field), Words(tables.fieldAssignments.function_),
     Words(RawOf(tables.fieldAssignments.source, AssignmentSourceRaw)),
     Words(tables.fieldAssignments.memoryOperation), Words(tables.fieldAssignments.expression),
     Words(tables.fieldAssignments.line)]
  }

  function ColumnsInOrder(tables: Tables): seq<Column> {
    ModuleColumns(tables) + TypeColumns(tables) + FunctionColumns(tables) + FlowColumns(tables)
      + ExpressionColumns(tables)
  }

  lemma {:induction false} FlatOfMore<T>(first: seq<seq<T>>, second: seq<seq<T>>)
    ensures Flat(first + second) == Flat(first) + Flat(second)
    decreases |first|
  {
    if first == [] {
      assert first + second == second;
    } else {
      assert (first + second)[1..] == first[1..] + second;
      FlatOfMore(first[1..], second);
    }
  }

  lemma FlatTwo<T>(a: seq<T>, b: seq<T>)
    ensures Flat([a]) == a && Flat([a, b]) == a + b
  {
    var none: seq<seq<T>> := [];
    assert [a][1..] == none && [a, b][1..] == [b] && Flat(none) == [];
    assert a + [] == a && b + [] == b && Flat([b]) == b;
  }

  lemma FlatThree<T>(a: seq<T>, b: seq<T>, c: seq<T>)
    ensures Flat([a, b, c]) == a + b + c
  {
    FlatOfMore([a, b], [c]);
    assert [a, b] + [c] == [a, b, c];
    FlatTwo(a, b);
    FlatTwo(c, c);
  }

  lemma FlatFour<T>(a: seq<T>, b: seq<T>, c: seq<T>, d: seq<T>)
    ensures Flat([a, b, c, d]) == a + b + c + d
  {
    FlatOfMore([a, b, c], [d]);
    assert [a, b, c] + [d] == [a, b, c, d];
    FlatThree(a, b, c);
    FlatTwo(d, d);
  }

  lemma FlatOfFive<T>(a: seq<seq<T>>, b: seq<seq<T>>, c: seq<seq<T>>, d: seq<seq<T>>, e: seq<seq<T>>)
    ensures Flat(a + b + c + d + e) == Flat(a) + Flat(b) + Flat(c) + Flat(d) + Flat(e)
  {
    FlatOfMore(a + b + c + d, e);
    FlatOfMore(a + b + c, d);
    FlatOfMore(a + b, c);
    FlatOfMore(a, b);
  }

  lemma ModulesInOrder(tables: Tables)
    ensures Flat([StringsColumns(tables.strings), ModulesColumns(tables.modules),
                  UnresolvedImportsColumns(tables.unresolvedImports), ArtifactsColumns(tables.artifacts)])
         == ModuleColumns(tables)
  {
    FlatFour(StringsColumns(tables.strings), ModulesColumns(tables.modules),
             UnresolvedImportsColumns(tables.unresolvedImports), ArtifactsColumns(tables.artifacts));
  }

  lemma TypesInOrder(tables: Tables)
    ensures Flat([TypesColumns(tables.types), StructsColumns(tables.structs), FieldsColumns(tables.fields)])
         == TypeColumns(tables)
  {
    FlatThree(TypesColumns(tables.types), StructsColumns(tables.structs), FieldsColumns(tables.fields));
  }

  lemma FunctionsInOrder(tables: Tables)
    ensures Flat([FunctionsColumns(tables.functions), ParametersColumns(tables.parameters)]) == FunctionColumns(tables)
  {
    FlatTwo(FunctionsColumns(tables.functions), ParametersColumns(tables.parameters));
  }

  lemma FlowInOrder(tables: Tables)
    ensures Flat([AllocatorSourcesColumns(tables.allocatorSources), CallsColumns(tables.calls),
                  CallArgumentsColumns(tables.callArguments), MemoryOperationsColumns(tables.memoryOperations)])
         == FlowColumns(tables)
  {
    FlatFour(AllocatorSourcesColumns(tables.allocatorSources), CallsColumns(tables.calls),
             CallArgumentsColumns(tables.callArguments), MemoryOperationsColumns(tables.memoryOperations));
  }

  lemma ExpressionsInOrder(tables: Tables)
    ensures Flat([ExpressionsColumns(tables.expressions), FieldAssignmentsColumns(tables.fieldAssignments)])
         == ExpressionColumns(tables)
  {
    FlatTwo(ExpressionsColumns(tables.expressions), FieldAssignmentsColumns(tables.fieldAssignments));
  }

  /** The file holds these columns, in this order. */
  lemma ColumnsAreInOrder(tables: Tables)
    ensures Flat(GroupsOf(tables)) == ColumnsInOrder(tables)
  {
    var groups := GroupsOf(tables);
    var modules := [StringsColumns(tables.strings), ModulesColumns(tables.modules),
                    UnresolvedImportsColumns(tables.unresolvedImports), ArtifactsColumns(tables.artifacts)];
    var types := [TypesColumns(tables.types), StructsColumns(tables.structs), FieldsColumns(tables.fields)];
    var functions := [FunctionsColumns(tables.functions), ParametersColumns(tables.parameters)];
    var flow := [AllocatorSourcesColumns(tables.allocatorSources), CallsColumns(tables.calls),
                 CallArgumentsColumns(tables.callArguments), MemoryOperationsColumns(tables.memoryOperations)];
    var expressions := [ExpressionsColumns(tables.expressions), FieldAssignmentsColumns(tables.fieldAssignments)];
    assert groups == modules + types + functions + flow + expressions;
    FlatOfFive(modules, types, functions, flow, expressions);
    ModulesInOrder(tables);
    TypesInOrder(tables);
    FunctionsInOrder(tables);
    FlowInOrder(tables);
    ExpressionsInOrder(tables);
  }

  // ---- Offsets ------------------------------------------------------------------------------------

  /** How many bytes a column takes: four for its count, and one or four for each value. */
  function Taken(column: Column): nat {
    match column
    case Bytes(bytes) => 4 + |bytes|
    case Words(words) => 4 + 4 * |words|
  }

  /** Where a column starts: after sixteen bytes of header and the columns before it. */
  function StartOf(columns: seq<Column>, i: nat): (start: nat)
    requires i <= |columns|
    ensures start >= 16
  {
    if i == 0 then 16 else StartOf(columns, i - 1) + Taken(columns[i - 1])
  }

  /** A run is what comes before one of its values, the value, and what comes after. */
  lemma {:induction false} RunSplits<V>(encode: V -> seq<u8>, values: seq<V>, i: nat) returns (rest: seq<u8>)
    requires i < |values|
    ensures EncodeRun(encode, values) == EncodeRun(encode, values[..i]) + encode(values[i]) + rest
    decreases |values|
  {
    var fewer, last := values[..|values| - 1], values[|values| - 1];
    if i == |values| - 1 {
      rest := [];
      assert EncodeRun(encode, fewer) + encode(last) + [] == EncodeRun(encode, fewer) + encode(last);
    } else {
      var before := RunSplits(encode, fewer, i);
      rest := before + encode(last);
      assert fewer[..i] == values[..i] && fewer[i] == values[i];
      InTurn(EncodeRun(encode, values[..i]) + encode(values[i]), before, encode(last));
    }
  }

  lemma InTurn<T>(a: seq<T>, b: seq<T>, c: seq<T>)
    ensures a + b + c == a + (b + c)
  {
  }

  lemma AtMiddle(header: seq<u8>, before: seq<u8>, part: seq<u8>, rest: seq<u8>)
    ensures At(header + (before + part + rest), |header| + |before|, part)
  {
    var bytes := header + (before + part + rest);
    assert bytes[|header| + |before|..|header| + |before| + |part|] == part;
  }

  lemma {:induction false} LengthOfRun(columns: seq<Column>, i: nat)
    requires i <= |columns|
    ensures |EncodeColumns(columns[..i])| == StartOf(columns, i) - 16
    decreases i
  {
    if i > 0 {
      LengthOfRun(columns, i - 1);
      assert columns[..i][..i - 1] == columns[..i - 1];
    }
  }

  lemma FileIsHeaderAndColumns(tables: Tables)
    ensures Encoding(tables) == Header(tables.target) + EncodeColumns(ColumnsInOrder(tables))
  {
    ColumnsAreInOrder(tables);
  }

  /** A column in a file: how many values it has, its low 32 bits if need be, and the values. */
  ghost function CountAndValues(column: Column): seq<u8> {
    Le(ColumnLength(column) % 0x1_0000_0000) + Payload(column)
  }

  lemma ColumnIs(column: Column)
    ensures EncodeColumn(column) == CountAndValues(column)
  {
  }

  /** Each column of a file starts where the ones before it end, with its count and then its values. */
  lemma ColumnIsAt(tables: Tables, columns: seq<Column>, file: seq<u8>, i: nat)
    requires columns == ColumnsInOrder(tables) && file == Encoding(tables) && i < |columns|
    ensures At(file, StartOf(columns, i), CountAndValues(columns[i]))
  {
    FileIsHeaderAndColumns(tables);
    var rest := RunSplits(EncodeColumn, columns, i);
    LengthOfRun(columns, i);
    ColumnIs(columns[i]);
    AtMiddle(Header(tables.target), EncodeColumns(columns[..i]), CountAndValues(columns[i]), rest);
  }

  /** A file opens with its magic, its version and its target. */
  lemma HeaderIs(target: StringId)
    ensures Header(target)[..8] == Ascii("ZAGFACT") + [0]
    ensures Header(target)[8..12] == [2, 0, 0, 0] && Header(target)[12..16] == Le(target)
  {
    LeIsLeBytes(2);
    assert Ascii("ZAGFACT") == [90, 65, 71, 70, 65, 67, 84];
    assert Header(target)[8..12] == Le(2);
  }
}
