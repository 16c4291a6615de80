/** What each column of the tables looks like on the wire, and the enumerations behind the numbers. */
module WireTables {
  import opened Basics
  import opened Facts

  /** A column as it travels: bytes, or words whatever they name. */
  datatype Column = Bytes(bytes: seq<u8>) | Words(words: seq<u32>)

  /** What a reader expects of a column; an enumeration knows how many values it has. */
  datatype ColumnKind = ByteColumn | WordColumn | EnumColumn(name: string, limit: nat)

  function ColumnLength(column: Column): nat {
    match column
    case Bytes(bytes) => |bytes|
    case Words(words) => |words|
  }

  predicate MatchesColumn(kind: ColumnKind, column: Column) {
    && ColumnLength(column) < 0x1_0000_0000
    && match kind
       case ByteColumn => column.Bytes?
       case WordColumn => column.Words?
       case EnumColumn(_, limit) => column.Words? && forall i :: 0 <= i < |column.words| ==> column.words[i] < limit
  }

  predicate Matches(kinds: seq<ColumnKind>, columns: seq<Column>) {
    |kinds| == |columns| && forall i :: 0 <= i < |columns| ==> MatchesColumn(kinds[i], columns[i])
  }

  predicate MatchesAll(schemas: seq<seq<ColumnKind>>, groups: seq<seq<Column>>) {
    |schemas| == |groups| && forall i :: 0 <= i < |groups| ==> Matches(schemas[i], groups[i])
  }

  /** No column is longer than the count in front of it can say. */
  predicate Short(columns: seq<Column>) {
    forall i :: 0 <= i < |columns| ==> ColumnLength(columns[i]) < 0x1_0000_0000
  }

  predicate Encodable(tables: Tables) {
    && Short(StringsColumns(tables.strings))
    && Short(ModulesColumns(tables.modules))
    && Short(UnresolvedImportsColumns(tables.unresolvedImports))
    && Short(ArtifactsColumns(tables.artifacts))
    && Short(TypesColumns(tables.types))
    && Short(StructsColumns(tables.structs))
    && Short(FieldsColumns(tables.fields))
    && Short(FunctionsColumns(tables.functions))
    && Short(ParametersColumns(tables.parameters))
    && Short(AllocatorSourcesColumns(tables.allocatorSources))
    && Short(CallsColumns(tables.calls))
    && Short(CallArgumentsColumns(tables.callArguments))
    && Short(MemoryOperationsColumns(tables.memoryOperations))
    && Short(ExpressionsColumns(tables.expressions))
    && Short(FieldAssignmentsColumns(tables.fieldAssignments))
  }

  // ---- Enumerations ---------------------------------------------------------------------------

  function RawOf<T>(kinds: seq<T>, raw: T -> u32): seq<u32> {
    seq(|kinds|, i requires 0 <= i < |kinds| => raw(kinds[i]))
  }

  function KindsOf<T>(words: seq<u32>, from: u32 -> T): seq<T> {
    seq(|words|, i requires 0 <= i < |words| => from(words[i]))
  }

  lemma KindsRoundTrip<T(!new)>(kinds: seq<T>, raw: T -> u32, from: u32 -> T, limit: nat)
    requires forall kind :: from(raw(kind)) == kind && raw(kind) < limit
    ensures KindsOf(RawOf(kinds, raw), from) == kinds
    ensures forall i :: 0 <= i < |kinds| ==> RawOf(kinds, raw)[i] < limit
  {
  }

  lemma RawRoundTrip<T(!new)>(words: seq<u32>, raw: T -> u32, from: u32 -> T, limit: nat)
    requires forall word: u32 :: word < limit ==> raw(from(word)) == word
    requires forall i :: 0 <= i < |words| ==> words[i] < limit
    ensures RawOf(KindsOf(words, from), raw) == words
  {
  }

  function ArtifactKindRaw(kind: ArtifactKind): u32 {
    match kind
    case Executable => 0
    case Library => 1
    case Test => 2
  }

  function ArtifactKindFrom(raw: u32): ArtifactKind {
    match raw
    case 0 => Executable
    case 1 => Library
    case _ => Test
  }

  lemma ArtifactKindInverse()
    ensures forall kind :: ArtifactKindFrom(ArtifactKindRaw(kind)) == kind && ArtifactKindRaw(kind) < 3
    ensures forall raw: u32 :: raw < 3 ==> ArtifactKindRaw(ArtifactKindFrom(raw)) == raw
  {
  }

  function TypeKindRaw(kind: TypeKind): u32 {
    match kind
    case Void => 0
    case Integer => 1
    case Bool => 2
    case Slice => 3
    case Pointer => 4
    case Struct => 5
    case Opaque => 6
    case Optional => 7
    case Array => 8
    case Float => 9
  }

  function TypeKindFrom(raw: u32): TypeKind {
    match raw
    case 0 => Void
    case 1 => Integer
    case 2 => Bool
    case 3 => Slice
    case 4 => Pointer
    case 5 => Struct
    case 6 => Opaque
    case 7 => Optional
    case 8 => Array
    case _ => Float
  }

  lemma TypeKindInverse()
    ensures forall kind :: TypeKindFrom(TypeKindRaw(kind)) == kind && TypeKindRaw(kind) < 10
    ensures forall raw: u32 :: raw < 10 ==> TypeKindRaw(TypeKindFrom(raw)) == raw
  {
  }

  function ContainerKindRaw(kind: ContainerKind): u32 {
    match kind
    case StructContainer => 0
    case EnumContainer => 1
    case UnionContainer => 2
    case ErrorSet => 3
  }

  function ContainerKindFrom(raw: u32): ContainerKind {
    match raw
    case 0 => StructContainer
    case 1 => EnumContainer
    case 2 => UnionContainer
    case _ => ErrorSet
  }

  lemma ContainerKindInverse()
    ensures forall kind :: ContainerKindFrom(ContainerKindRaw(kind)) == kind && ContainerKindRaw(kind) < 4
    ensures forall raw: u32 :: raw < 4 ==> ContainerKindRaw(ContainerKindFrom(raw)) == raw
  {
  }

  function AllocatorSourceKindRaw(kind: AllocatorSourceKind): u32 {
    match kind
    case GlobalSource => 0
    case ArenaSource => 1
    case ParameterSource => 2
    case UnknownSource => 3
  }

  function AllocatorSourceKindFrom(raw: u32): AllocatorSourceKind {
    match raw
    case 0 => GlobalSource
    case 1 => ArenaSource
    case 2 => ParameterSource
    case _ => UnknownSource
  }

  lemma AllocatorSourceKindInverse()
    ensures forall kind ::
              AllocatorSourceKindFrom(AllocatorSourceKindRaw(kind)) == kind && AllocatorSourceKindRaw(kind) < 4
    ensures forall raw: u32 :: raw < 4 ==> AllocatorSourceKindRaw(AllocatorSourceKindFrom(raw)) == raw
  {
  }

  function MemoryOperationKindRaw(kind: MemoryOperationKind): u32 {
    match kind
    case Allocate => 0
    case Free => 1
    case Resize => 2
  }

  function MemoryOperationKindFrom(raw: u32): MemoryOperationKind {
    match raw
    case 0 => Allocate
    case 1 => Free
    case _ => Resize
  }

  lemma MemoryOperationKindInverse()
    ensures forall kind ::
              MemoryOperationKindFrom(MemoryOperationKindRaw(kind)) == kind && MemoryOperationKindRaw(kind) < 3
    ensures forall raw: u32 :: raw < 3 ==> MemoryOperationKindRaw(MemoryOperationKindFrom(raw)) == raw
  {
  }

  function PlaceKindRaw(kind: PlaceKind): u32 {
    match kind
    case FieldOfParameter => 0
    case Local => 1
    case UnknownPlace => 2
  }

  function PlaceKindFrom(raw: u32): PlaceKind {
    match raw
    case 0 => FieldOfParameter
    case 1 => Local
    case _ => UnknownPlace
  }

  lemma PlaceKindInverse()
    ensures forall kind :: PlaceKindFrom(PlaceKindRaw(kind)) == kind && PlaceKindRaw(kind) < 3
    ensures forall raw: u32 :: raw < 3 ==> PlaceKindRaw(PlaceKindFrom(raw)) == raw
  {
  }

  function ExpressionKindRaw(kind: ExpressionKind): u32 {
    match kind
    case Literal => 0
    case Parameter => 1
    case Length => 2
    case Cast => 3
    case Allocation => 4
    case StructLiteral => 5
    case Unsupported => 6
    case Null => 7
    case Identifier => 8
    case Field => 9
    case Binary => 10
    case Unary => 11
    case Index => 12
    case Call => 13
    case Branch => 14
    case Block => 15
    case Return => 16
    case Let => 17
    case Assign => 18
    case Group => 19
    case Question => 20
    case Method => 21
    case While => 22
    case For => 23
    case Match => 24
    case Arm => 25
    case Wrap => 26
  }

  function ExpressionKindFrom(raw: u32): ExpressionKind {
    match raw
    case 0 => Literal
    case 1 => Parameter
    case 2 => Length
    case 3 => Cast
    case 4 => Allocation
    case 5 => StructLiteral
    case 6 => Unsupported
    case 7 => Null
    case 8 => Identifier
    case 9 => Field
    case 10 => Binary
    case 11 => Unary
    case 12 => Index
    case 13 => Call
    case 14 => Branch
    case 15 => Block
    case 16 => Return
    case 17 => Let
    case 18 => Assign
    case 19 => Group
    case 20 => Question
    case 21 => Method
    case 22 => While
    case 23 => For
    case 24 => Match
    case 25 => Arm
    case _ => Wrap
  }

  lemma ExpressionKindInverse()
    ensures forall kind :: ExpressionKindFrom(ExpressionKindRaw(kind)) == kind && ExpressionKindRaw(kind) < 27
    ensures forall raw: u32 :: raw < 27 ==> ExpressionKindRaw(ExpressionKindFrom(raw)) == raw
  {
  }

  function AssignmentSourceRaw(kind: AssignmentSource): u32 {
    match kind
    case FromAllocation => 0
    case FromParameter => 1
    case FromLiteral => 2
    case FromUnknown => 3
  }

  function AssignmentSourceFrom(raw: u32): AssignmentSource {
    match raw
    case 0 => FromAllocation
    case 1 => FromParameter
    case 2 => FromLiteral
    case _ => FromUnknown
  }

  lemma AssignmentSourceInverse()
    ensures forall kind :: AssignmentSourceFrom(AssignmentSourceRaw(kind)) == kind && AssignmentSourceRaw(kind) < 4
    ensures forall raw: u32 :: raw < 4 ==> AssignmentSourceRaw(AssignmentSourceFrom(raw)) == raw
  {
  }

  // ---- The columns of each table, in the order they are written ----------------------------------

  const STRINGS_SCHEMA: seq<ColumnKind> :=
    [ByteColumn, WordColumn]

  function StringsColumns(table: Strings): seq<Column> {
    [
      Bytes(table.bytes), Words(table.offsets)
    ]
  }

  function StringsFrom(columns: seq<Column>): Strings
    requires Matches(STRINGS_SCHEMA, columns)
  {
    assert forall i :: 0 <= i < |columns| ==> MatchesColumn(STRINGS_SCHEMA[i], columns[i]);
    Strings(
      columns[0].bytes, columns[1].words)
  }

  lemma StringsRoundTrip(table: Strings)
    requires Short(StringsColumns(table))
    ensures Matches(STRINGS_SCHEMA, StringsColumns(table)) && StringsFrom(StringsColumns(table)) == table
  {
  }

  lemma StringsBackAgain(columns: seq<Column>)
    requires Matches(STRINGS_SCHEMA, columns)
    ensures StringsColumns(StringsFrom(columns)) == columns
  {
    assert forall i :: 0 <= i < |columns| ==> MatchesColumn(STRINGS_SCHEMA[i], columns[i]);
  }

  const MODULES_SCHEMA: seq<ColumnKind> :=
    [WordColumn, WordColumn, WordColumn, WordColumn]

  function ModulesColumns(table: Modules): seq<Column> {
    [
      Words(table.name), Words(table.path), Words(table.unresolvedStart), Words(table.unresolvedCount)
    ]
  }

  function ModulesFrom(columns: seq<Column>): Modules
    requires Matches(MODULES_SCHEMA, columns)
  {
    assert forall i :: 0 <= i < |columns| ==> MatchesColumn(MODULES_SCHEMA[i], columns[i]);
    Modules(
      columns[0].words, columns[1].words, columns[2].words, columns[3].words)
  }

  lemma ModulesRoundTrip(table: Modules)
    requires Short(ModulesColumns(table))
    ensures Matches(MODULES_SCHEMA, ModulesColumns(table)) && ModulesFrom(ModulesColumns(table)) == table
  {
  }

  lemma ModulesBackAgain(columns: seq<Column>)
    requires Matches(MODULES_SCHEMA, columns)
    ensures ModulesColumns(ModulesFrom(columns)) == columns
  {
    assert forall i :: 0 <= i < |columns| ==> MatchesColumn(MODULES_SCHEMA[i], columns[i]);
  }

  const UNRESOLVED_IMPORTS_SCHEMA: seq<ColumnKind> :=
    [WordColumn, WordColumn]

  function UnresolvedImportsColumns(table: UnresolvedImports): seq<Column> {
    [
      Words(table.owner), Words(table.name)
    ]
  }

  function UnresolvedImportsFrom(columns: seq<Column>): UnresolvedImports
    requires Matches(UNRESOLVED_IMPORTS_SCHEMA, columns)
  {
    assert forall i :: 0 <= i < |columns| ==> MatchesColumn(UNRESOLVED_IMPORTS_SCHEMA[i], columns[i]);
    UnresolvedImports(
      columns[0].words, columns[1].words)
  }

  lemma UnresolvedImportsRoundTrip(table: UnresolvedImports)
    requires Short(UnresolvedImportsColumns(table))
    ensures Matches(UNRESOLVED_IMPORTS_SCHEMA, UnresolvedImportsColumns(table))
    ensures UnresolvedImportsFrom(UnresolvedImportsColumns(table)) == table
  {
  }

  lemma UnresolvedImportsBackAgain(columns: seq<Column>)
    requires Matches(UNRESOLVED_IMPORTS_SCHEMA, columns)
    ensures UnresolvedImportsColumns(UnresolvedImportsFrom(columns)) == columns
  {
    assert forall i :: 0 <= i < |columns| ==> MatchesColumn(UNRESOLVED_IMPORTS_SCHEMA[i], columns[i]);
  }

  const ARTIFACTS_SCHEMA: seq<ColumnKind> :=
    [WordColumn, WordColumn, EnumColumn("artifacts.kind", 3)]

  function ArtifactsColumns(table: Artifacts): seq<Column> {
    [
      Words(table.name), Words(table.root), Words(RawOf(table.kind, ArtifactKindRaw))
    ]
  }

  function ArtifactsFrom(columns: seq<Column>): Artifacts
    requires Matches(ARTIFACTS_SCHEMA, columns)
  {
    assert forall i :: 0 <= i < |columns| ==> MatchesColumn(ARTIFACTS_SCHEMA[i], columns[i]);
    Artifacts(
      columns[0].words, columns[1].words, KindsOf(columns[2].words, ArtifactKindFrom))
  }

  lemma ArtifactsRoundTrip(table: Artifacts)
    requires Short(ArtifactsColumns(table))
    ensures Matches(ARTIFACTS_SCHEMA, ArtifactsColumns(table)) && ArtifactsFrom(ArtifactsColumns(table)) == table
  {
    ArtifactKindInverse();
    KindsRoundTrip(table.kind, ArtifactKindRaw, ArtifactKindFrom, 3);
  }

  lemma ArtifactsBackAgain(columns: seq<Column>)
    requires Matches(ARTIFACTS_SCHEMA, columns)
    ensures ArtifactsColumns(ArtifactsFrom(columns)) == columns
  {
    assert forall i :: 0 <= i < |columns| ==> MatchesColumn(ARTIFACTS_SCHEMA[i], columns[i]);
    ArtifactKindInverse();
    RawRoundTrip(columns[2].words, ArtifactKindRaw, ArtifactKindFrom, 3);
  }

  const TYPES_SCHEMA: seq<ColumnKind> :=
    [EnumColumn("types.kind", 10), WordColumn, WordColumn, WordColumn, WordColumn, WordColumn, WordColumn,
      WordColumn, WordColumn]

  function TypesColumns(table: Types): seq<Column> {
    [
      Words(RawOf(table.kind, TypeKindRaw)), Words(table.element), Words(table.count), Words(table.module_),
      Words(table.name), Words(table.size), Words(table.alignment), Words(table.bitWidth), Words(table.flags)
    ]
  }

  function TypesFrom(columns: seq<Column>): Types
    requires Matches(TYPES_SCHEMA, columns)
  {
    assert forall i :: 0 <= i < |columns| ==> MatchesColumn(TYPES_SCHEMA[i], columns[i]);
    Types(
      KindsOf(columns[0].words, TypeKindFrom), columns[1].words, columns[2].words, columns[3].words,
      columns[4].words, columns[5].words, columns[6].words, columns[7].words, columns[8].words)
  }

  lemma TypesRoundTrip(table: Types)
    requires Short(TypesColumns(table))
    ensures Matches(TYPES_SCHEMA, TypesColumns(table)) && TypesFrom(TypesColumns(table)) == table
  {
    TypeKindInverse();
    KindsRoundTrip(table.kind, TypeKindRaw, TypeKindFrom, 10);
  }

  lemma TypesBackAgain(columns: seq<Column>)
    requires Matches(TYPES_SCHEMA, columns)
    ensures TypesColumns(TypesFrom(columns)) == columns
  {
    assert forall i :: 0 <= i < |columns| ==> MatchesColumn(TYPES_SCHEMA[i], columns[i]);
    TypeKindInverse();
    RawRoundTrip(columns[0].words, TypeKindRaw, TypeKindFrom, 10);
  }

  const STRUCTS_SCHEMA: seq<ColumnKind> :=
    [WordColumn, WordColumn, WordColumn, WordColumn, WordColumn, WordColumn, WordColumn, WordColumn, WordColumn,
      EnumColumn("structs.kind", 4)]

  function StructsColumns(table: Structs): seq<Column> {
    [
      Words(table.name), Words(table.module_), Words(table.typeId), Words(table.fieldStart),
      Words(table.fieldCount), Words(table.size), Words(table.alignment), Words(table.flags),
      Words(table.deinit), Words(RawOf(table.kind, ContainerKindRaw))
    ]
  }

  function StructsFrom(columns: seq<Column>): Structs
    requires Matches(STRUCTS_SCHEMA, columns)
  {
    assert forall i :: 0 <= i < |columns| ==> MatchesColumn(STRUCTS_SCHEMA[i], columns[i]);
    Structs(
      columns[0].words, columns[1].words, columns[2].words, columns[3].words, columns[4].words,
      columns[5].words, columns[6].words, columns[7].words, columns[8].words,
      KindsOf(columns[9].words, ContainerKindFrom))
  }

  lemma StructsRoundTrip(table: Structs)
    requires Short(StructsColumns(table))
    ensures Matches(STRUCTS_SCHEMA, StructsColumns(table)) && StructsFrom(StructsColumns(table)) == table
  {
    ContainerKindInverse();
    KindsRoundTrip(table.kind, ContainerKindRaw, ContainerKindFrom, 4);
  }

  lemma StructsBackAgain(columns: seq<Column>)
    requires Matches(STRUCTS_SCHEMA, columns)
    ensures StructsColumns(StructsFrom(columns)) == columns
  {
    assert forall i :: 0 <= i < |columns| ==> MatchesColumn(STRUCTS_SCHEMA[i], columns[i]);
    ContainerKindInverse();
    RawRoundTrip(columns[9].words, ContainerKindRaw, ContainerKindFrom, 4);
  }

  const FIELDS_SCHEMA: seq<ColumnKind> :=
    [WordColumn, WordColumn, WordColumn, WordColumn]

  function FieldsColumns(table: Fields): seq<Column> {
    [
      Words(table.owner), Words(table.name), Words(table.fieldType), Words(table.offset)
    ]
  }

  function FieldsFrom(columns: seq<Column>): Fields
    requires Matches(FIELDS_SCHEMA, columns)
  {
    assert forall i :: 0 <= i < |columns| ==> MatchesColumn(FIELDS_SCHEMA[i], columns[i]);
    Fields(
      columns[0].words, columns[1].words, columns[2].words, columns[3].words)
  }

  lemma FieldsRoundTrip(table: Fields)
    requires Short(FieldsColumns(table))
    ensures Matches(FIELDS_SCHEMA, FieldsColumns(table)) && FieldsFrom(FieldsColumns(table)) == table
  {
  }

  lemma FieldsBackAgain(columns: seq<Column>)
    requires Matches(FIELDS_SCHEMA, columns)
    ensures FieldsColumns(FieldsFrom(columns)) == columns
  {
    assert forall i :: 0 <= i < |columns| ==> MatchesColumn(FIELDS_SCHEMA[i], columns[i]);
  }

  const FUNCTIONS_SCHEMA: seq<ColumnKind> :=
    [WordColumn, WordColumn, WordColumn, WordColumn, WordColumn, WordColumn, WordColumn, WordColumn, WordColumn,
      WordColumn]

  function FunctionsColumns(table: Functions): seq<Column> {
    [
      Words(table.name), Words(table.module_), Words(table.owner), Words(table.parameterStart),
      Words(table.parameterCount), Words(table.returns_), Words(table.errorSet), Words(table.flags),
      Words(table.line), Words(table.body)
    ]
  }

  function FunctionsFrom(columns: seq<Column>): Functions
    requires Matches(FUNCTIONS_SCHEMA, columns)
  {
    assert forall i :: 0 <= i < |columns| ==> MatchesColumn(FUNCTIONS_SCHEMA[i], columns[i]);
    Functions(
      columns[0].words, columns[1].words, columns[2].words, columns[3].words, columns[4].words,
      columns[5].words, columns[6].words, columns[7].words, columns[8].words, columns[9].words)
  }

  lemma FunctionsRoundTrip(table: Functions)
    requires Short(FunctionsColumns(table))
    ensures Matches(FUNCTIONS_SCHEMA, FunctionsColumns(table)) && FunctionsFrom(FunctionsColumns(table)) == table
  {
  }

  lemma FunctionsBackAgain(columns: seq<Column>)
    requires Matches(FUNCTIONS_SCHEMA, columns)
    ensures FunctionsColumns(FunctionsFrom(columns)) == columns
  {
    assert forall i :: 0 <= i < |columns| ==> MatchesColumn(FUNCTIONS_SCHEMA[i], columns[i]);
  }

  const PARAMETERS_SCHEMA: seq<ColumnKind> :=
    [WordColumn, WordColumn, WordColumn, WordColumn]

  function ParametersColumns(table: Parameters): seq<Column> {
    [
      Words(table.owner), Words(table.name), Words(table.parameterType), Words(table.flags)
    ]
  }

  function ParametersFrom(columns: seq<Column>): Parameters
    requires Matches(PARAMETERS_SCHEMA, columns)
  {
    assert forall i :: 0 <= i < |columns| ==> MatchesColumn(PARAMETERS_SCHEMA[i], columns[i]);
    Parameters(
      columns[0].words, columns[1].words, columns[2].words, columns[3].words)
  }

  lemma ParametersRoundTrip(table: Parameters)
    requires Short(ParametersColumns(table))
    ensures Matches(PARAMETERS_SCHEMA, ParametersColumns(table)) && ParametersFrom(ParametersColumns(table)) == table
  {
  }

  lemma ParametersBackAgain(columns: seq<Column>)
    requires Matches(PARAMETERS_SCHEMA, columns)
    ensures ParametersColumns(ParametersFrom(columns)) == columns
  {
    assert forall i :: 0 <= i < |columns| ==> MatchesColumn(PARAMETERS_SCHEMA[i], columns[i]);
  }

  const ALLOCATOR_SOURCES_SCHEMA: seq<ColumnKind> :=
    [EnumColumn("allocator_sources.kind", 4), WordColumn, WordColumn]

  function AllocatorSourcesColumns(table: AllocatorSources): seq<Column> {
    [
      Words(RawOf(table.kind, AllocatorSourceKindRaw)), Words(table.function_), Words(table.parameterIndex)
    ]
  }

  function AllocatorSourcesFrom(columns: seq<Column>): AllocatorSources
    requires Matches(ALLOCATOR_SOURCES_SCHEMA, columns)
  {
    assert forall i :: 0 <= i < |columns| ==> MatchesColumn(ALLOCATOR_SOURCES_SCHEMA[i], columns[i]);
    AllocatorSources(
      KindsOf(columns[0].words, AllocatorSourceKindFrom), columns[1].words, columns[2].words)
  }

  lemma AllocatorSourcesRoundTrip(table: AllocatorSources)
    requires Short(AllocatorSourcesColumns(table))
    ensures Matches(ALLOCATOR_SOURCES_SCHEMA, AllocatorSourcesColumns(table))
    ensures AllocatorSourcesFrom(AllocatorSourcesColumns(table)) == table
  {
    AllocatorSourceKindInverse();
    KindsRoundTrip(table.kind, AllocatorSourceKindRaw, AllocatorSourceKindFrom, 4);
  }

  lemma AllocatorSourcesBackAgain(columns: seq<Column>)
    requires Matches(ALLOCATOR_SOURCES_SCHEMA, columns)
    ensures AllocatorSourcesColumns(AllocatorSourcesFrom(columns)) == columns
  {
    assert forall i :: 0 <= i < |columns| ==> MatchesColumn(ALLOCATOR_SOURCES_SCHEMA[i], columns[i]);
    AllocatorSourceKindInverse();
    RawRoundTrip(columns[0].words, AllocatorSourceKindRaw, AllocatorSourceKindFrom, 4);
  }

  const CALLS_SCHEMA: seq<ColumnKind> :=
    [WordColumn, WordColumn]

  function CallsColumns(table: Calls): seq<Column> {
    [
      Words(table.caller), Words(table.callee)
    ]
  }

  function CallsFrom(columns: seq<Column>): Calls
    requires Matches(CALLS_SCHEMA, columns)
  {
    assert forall i :: 0 <= i < |columns| ==> MatchesColumn(CALLS_SCHEMA[i], columns[i]);
    Calls(
      columns[0].words, columns[1].words)
  }

  lemma CallsRoundTrip(table: Calls)
    requires Short(CallsColumns(table))
    ensures Matches(CALLS_SCHEMA, CallsColumns(table)) && CallsFrom(CallsColumns(table)) == table
  {
  }

  lemma CallsBackAgain(columns: seq<Column>)
    requires Matches(CALLS_SCHEMA, columns)
    ensures CallsColumns(CallsFrom(columns)) == columns
  {
    assert forall i :: 0 <= i < |columns| ==> MatchesColumn(CALLS_SCHEMA[i], columns[i]);
  }

  const CALL_ARGUMENTS_SCHEMA: seq<ColumnKind> :=
    [WordColumn, WordColumn, WordColumn]

  function CallArgumentsColumns(table: CallArguments): seq<Column> {
    [
      Words(table.call), Words(table.parameterIndex), Words(table.source)
    ]
  }

  function CallArgumentsFrom(columns: seq<Column>): CallArguments
    requires Matches(CALL_ARGUMENTS_SCHEMA, columns)
  {
    assert forall i :: 0 <= i < |columns| ==> MatchesColumn(CALL_ARGUMENTS_SCHEMA[i], columns[i]);
    CallArguments(
      columns[0].words, columns[1].words, columns[2].words)
  }

  lemma CallArgumentsRoundTrip(table: CallArguments)
    requires Short(CallArgumentsColumns(table))
    ensures Matches(CALL_ARGUMENTS_SCHEMA, CallArgumentsColumns(table))
    ensures CallArgumentsFrom(CallArgumentsColumns(table)) == table
  {
  }

  lemma CallArgumentsBackAgain(columns: seq<Column>)
    requires Matches(CALL_ARGUMENTS_SCHEMA, columns)
    ensures CallArgumentsColumns(CallArgumentsFrom(columns)) == columns
  {
    assert forall i :: 0 <= i < |columns| ==> MatchesColumn(CALL_ARGUMENTS_SCHEMA[i], columns[i]);
  }

  const MEMORY_OPERATIONS_SCHEMA: seq<ColumnKind> :=
    [WordColumn, EnumColumn("memory_operations.kind", 3), WordColumn, EnumColumn("memory_operations.place", 3),
      WordColumn]

  function MemoryOperationsColumns(table: MemoryOperations): seq<Column> {
    [
      Words(table.function_), Words(RawOf(table.kind, MemoryOperationKindRaw)), Words(table.allocator),
      Words(RawOf(table.place, PlaceKindRaw)), Words(table.placeField)
    ]
  }

  function MemoryOperationsFrom(columns: seq<Column>): MemoryOperations
    requires Matches(MEMORY_OPERATIONS_SCHEMA, columns)
  {
    assert forall i :: 0 <= i < |columns| ==> MatchesColumn(MEMORY_OPERATIONS_SCHEMA[i], columns[i]);
    MemoryOperations(
      columns[0].words, KindsOf(columns[1].words, MemoryOperationKindFrom), columns[2].words,
      KindsOf(columns[3].words, PlaceKindFrom), columns[4].words)
  }

  lemma MemoryOperationsRoundTrip(table: MemoryOperations)
    requires Short(MemoryOperationsColumns(table))
    ensures Matches(MEMORY_OPERATIONS_SCHEMA, MemoryOperationsColumns(table))
    ensures MemoryOperationsFrom(MemoryOperationsColumns(table)) == table
  {
    MemoryOperationKindInverse();
    KindsRoundTrip(table.kind, MemoryOperationKindRaw, MemoryOperationKindFrom, 3);
    PlaceKindInverse();
    KindsRoundTrip(table.place, PlaceKindRaw, PlaceKindFrom, 3);
  }

  lemma MemoryOperationsBackAgain(columns: seq<Column>)
    requires Matches(MEMORY_OPERATIONS_SCHEMA, columns)
    ensures MemoryOperationsColumns(MemoryOperationsFrom(columns)) == columns
  {
    assert forall i :: 0 <= i < |columns| ==> MatchesColumn(MEMORY_OPERATIONS_SCHEMA[i], columns[i]);
    MemoryOperationKindInverse();
    RawRoundTrip(columns[1].words, MemoryOperationKindRaw, MemoryOperationKindFrom, 3);
    PlaceKindInverse();
    RawRoundTrip(columns[3].words, PlaceKindRaw, PlaceKindFrom, 3);
  }

  const EXPRESSIONS_SCHEMA: seq<ColumnKind> :=
    [EnumColumn("expressions.kind", 27), WordColumn, WordColumn, WordColumn, WordColumn, WordColumn, WordColumn,
      WordColumn, WordColumn]

  function ExpressionsColumns(table: Expressions): seq<Column> {
    [
      Words(RawOf(table.kind, ExpressionKindRaw)), Words(table.text), Words(table.parameter),
      Words(table.result), Words(table.field), Words(table.line), Words(table.childStart),
      Words(table.childCount), Words(table.children)
    ]
  }

  function ExpressionsFrom(columns: seq<Column>): Expressions
    requires Matches(EXPRESSIONS_SCHEMA, columns)
  {
    assert forall i :: 0 <= i < |columns| ==> MatchesColumn(EXPRESSIONS_SCHEMA[i], columns[i]);
    Expressions(
      KindsOf(columns[0].words, ExpressionKindFrom), columns[1].words, columns[2].words, columns[3].words,
      columns[6].words, columns[7].words, columns[8].words, columns[4].words, columns[5].words)
  }

  lemma ExpressionsRoundTrip(table: Expressions)
    requires Short(ExpressionsColumns(table))
    ensures Matches(EXPRESSIONS_SCHEMA, ExpressionsColumns(table))
    ensures ExpressionsFrom(ExpressionsColumns(table)) == table
  {
    ExpressionKindInverse();
    KindsRoundTrip(table.kind, ExpressionKindRaw, ExpressionKindFrom, 27);
  }

  lemma ExpressionsBackAgain(columns: seq<Column>)
    requires Matches(EXPRESSIONS_SCHEMA, columns)
    ensures ExpressionsColumns(ExpressionsFrom(columns)) == columns
  {
    assert forall i :: 0 <= i < |columns| ==> MatchesColumn(EXPRESSIONS_SCHEMA[i], columns[i]);
    ExpressionKindInverse();
    RawRoundTrip(columns[0].words, ExpressionKindRaw, ExpressionKindFrom, 27);
  }

  const FIELD_ASSIGNMENTS_SCHEMA: seq<ColumnKind> :=
    [WordColumn, WordColumn, EnumColumn("field_assignments.source", 4), WordColumn, WordColumn, WordColumn]

  function FieldAssignmentsColumns(table: FieldAssignments): seq<Column> {
    [
      Words(table.field), Words(table.function_), Words(RawOf(table.source, AssignmentSourceRaw)),
      Words(table.memoryOperation), Words(table.expression), Words(table.line)
    ]
  }

  function FieldAssignmentsFrom(columns: seq<Column>): FieldAssignments
    requires Matches(FIELD_ASSIGNMENTS_SCHEMA, columns)
  {
    assert forall i :: 0 <= i < |columns| ==> MatchesColumn(FIELD_ASSIGNMENTS_SCHEMA[i], columns[i]);
    FieldAssignments(
      columns[0].words, columns[1].words, KindsOf(columns[2].words, AssignmentSourceFrom), columns[3].words,
      columns[4].words, columns[5].words)
  }

  lemma FieldAssignmentsRoundTrip(table: FieldAssignments)
    requires Short(FieldAssignmentsColumns(table))
    ensures Matches(FIELD_ASSIGNMENTS_SCHEMA, FieldAssignmentsColumns(table))
    ensures FieldAssignmentsFrom(FieldAssignmentsColumns(table)) == table
  {
    AssignmentSourceInverse();
    KindsRoundTrip(table.source, AssignmentSourceRaw, AssignmentSourceFrom, 4);
  }

  lemma FieldAssignmentsBackAgain(columns: seq<Column>)
    requires Matches(FIELD_ASSIGNMENTS_SCHEMA, columns)
    ensures FieldAssignmentsColumns(FieldAssignmentsFrom(columns)) == columns
  {
    assert forall i :: 0 <= i < |columns| ==> MatchesColumn(FIELD_ASSIGNMENTS_SCHEMA[i], columns[i]);
    AssignmentSourceInverse();
    RawRoundTrip(columns[2].words, AssignmentSourceRaw, AssignmentSourceFrom, 4);
  }

  // ---- All the tables ------------------------------------------------------------------------------

  const SCHEMAS: seq<seq<ColumnKind>> := [
    STRINGS_SCHEMA,
    MODULES_SCHEMA,
    UNRESOLVED_IMPORTS_SCHEMA,
    ARTIFACTS_SCHEMA,
    TYPES_SCHEMA,
    STRUCTS_SCHEMA,
    FIELDS_SCHEMA,
    FUNCTIONS_SCHEMA,
    PARAMETERS_SCHEMA,
    ALLOCATOR_SOURCES_SCHEMA,
    CALLS_SCHEMA,
    CALL_ARGUMENTS_SCHEMA,
    MEMORY_OPERATIONS_SCHEMA,
    EXPRESSIONS_SCHEMA,
    FIELD_ASSIGNMENTS_SCHEMA
  ]

  function GroupsOf(tables: Tables): seq<seq<Column>> {
    [
      StringsColumns(tables.strings), ModulesColumns(tables.modules),
      UnresolvedImportsColumns(tables.unresolvedImports), ArtifactsColumns(tables.artifacts),
      TypesColumns(tables.types), StructsColumns(tables.structs), FieldsColumns(tables.fields),
      FunctionsColumns(tables.functions), ParametersColumns(tables.parameters),
      AllocatorSourcesColumns(tables.allocatorSources), CallsColumns(tables.calls),
      CallArgumentsColumns(tables.callArguments), MemoryOperationsColumns(tables.memoryOperations),
      ExpressionsColumns(tables.expressions), FieldAssignmentsColumns(tables.fieldAssignments)
    ]
  }

  lemma SchemasApart(groups: seq<seq<Column>>)
    requires MatchesAll(SCHEMAS, groups)
    ensures Matches(STRINGS_SCHEMA, groups[0])
    ensures Matches(MODULES_SCHEMA, groups[1])
    ensures Matches(UNRESOLVED_IMPORTS_SCHEMA, groups[2])
    ensures Matches(ARTIFACTS_SCHEMA, groups[3])
    ensures Matches(TYPES_SCHEMA, groups[4])
    ensures Matches(STRUCTS_SCHEMA, groups[5])
    ensures Matches(FIELDS_SCHEMA, groups[6])
    ensures Matches(FUNCTIONS_SCHEMA, groups[7])
    ensures Matches(PARAMETERS_SCHEMA, groups[8])
    ensures Matches(ALLOCATOR_SOURCES_SCHEMA, groups[9])
    ensures Matches(CALLS_SCHEMA, groups[10])
    ensures Matches(CALL_ARGUMENTS_SCHEMA, groups[11])
    ensures Matches(MEMORY_OPERATIONS_SCHEMA, groups[12])
    ensures Matches(EXPRESSIONS_SCHEMA, groups[13])
    ensures Matches(FIELD_ASSIGNMENTS_SCHEMA, groups[14])
  {
    assert Matches(SCHEMAS[0], groups[0]);
    assert Matches(SCHEMAS[1], groups[1]);
    assert Matches(SCHEMAS[2], groups[2]);
    assert Matches(SCHEMAS[3], groups[3]);
    assert Matches(SCHEMAS[4], groups[4]);
    assert Matches(SCHEMAS[5], groups[5]);
    assert Matches(SCHEMAS[6], groups[6]);
    assert Matches(SCHEMAS[7], groups[7]);
    assert Matches(SCHEMAS[8], groups[8]);
    assert Matches(SCHEMAS[9], groups[9]);
    assert Matches(SCHEMAS[10], groups[10]);
    assert Matches(SCHEMAS[11], groups[11]);
    assert Matches(SCHEMAS[12], groups[12]);
    assert Matches(SCHEMAS[13], groups[13]);
    assert Matches(SCHEMAS[14], groups[14]);
  }

  function TablesFrom(target: StringId, groups: seq<seq<Column>>): Tables
    requires MatchesAll(SCHEMAS, groups)
  {
    SchemasApart(groups);
    Tables(
      target, StringsFrom(groups[0]), ModulesFrom(groups[1]), UnresolvedImportsFrom(groups[2]),
      ArtifactsFrom(groups[3]), TypesFrom(groups[4]), StructsFrom(groups[5]), FieldsFrom(groups[6]),
      FunctionsFrom(groups[7]), ParametersFrom(groups[8]), AllocatorSourcesFrom(groups[9]),
      CallsFrom(groups[10]), CallArgumentsFrom(groups[11]), MemoryOperationsFrom(groups[12]),
      ExpressionsFrom(groups[13]), FieldAssignmentsFrom(groups[14]))
  }

  lemma GroupsMatch(tables: Tables)
    requires Encodable(tables)
    ensures MatchesAll(SCHEMAS, GroupsOf(tables))
  {
    var groups := GroupsOf(tables);
    StringsRoundTrip(tables.strings);
    ModulesRoundTrip(tables.modules);
    UnresolvedImportsRoundTrip(tables.unresolvedImports);
    ArtifactsRoundTrip(tables.artifacts);
    TypesRoundTrip(tables.types);
    StructsRoundTrip(tables.structs);
    FieldsRoundTrip(tables.fields);
    FunctionsRoundTrip(tables.functions);
    ParametersRoundTrip(tables.parameters);
    AllocatorSourcesRoundTrip(tables.allocatorSources);
    CallsRoundTrip(tables.calls);
    CallArgumentsRoundTrip(tables.callArguments);
    MemoryOperationsRoundTrip(tables.memoryOperations);
    ExpressionsRoundTrip(tables.expressions);
    FieldAssignmentsRoundTrip(tables.fieldAssignments);
  }

  lemma TablesRoundTrip(tables: Tables)
    requires Encodable(tables)
    ensures MatchesAll(SCHEMAS, GroupsOf(tables)) && TablesFrom(tables.target, GroupsOf(tables)) == tables
  {
    GroupsMatch(tables);
    SchemasApart(GroupsOf(tables));
    StringsRoundTrip(tables.strings);
    ModulesRoundTrip(tables.modules);
    UnresolvedImportsRoundTrip(tables.unresolvedImports);
    ArtifactsRoundTrip(tables.artifacts);
    TypesRoundTrip(tables.types);
    StructsRoundTrip(tables.structs);
    FieldsRoundTrip(tables.fields);
    FunctionsRoundTrip(tables.functions);
    ParametersRoundTrip(tables.parameters);
    AllocatorSourcesRoundTrip(tables.allocatorSources);
    CallsRoundTrip(tables.calls);
    CallArgumentsRoundTrip(tables.callArguments);
    MemoryOperationsRoundTrip(tables.memoryOperations);
    ExpressionsRoundTrip(tables.expressions);
    FieldAssignmentsRoundTrip(tables.fieldAssignments);
  }

  lemma TablesBackAgain(target: StringId, groups: seq<seq<Column>>)
    requires MatchesAll(SCHEMAS, groups)
    ensures GroupsOf(TablesFrom(target, groups)) == groups
  {
    SchemasApart(groups);
    StringsBackAgain(groups[0]);
    ModulesBackAgain(groups[1]);
    UnresolvedImportsBackAgain(groups[2]);
    ArtifactsBackAgain(groups[3]);
    TypesBackAgain(groups[4]);
    StructsBackAgain(groups[5]);
    FieldsBackAgain(groups[6]);
    FunctionsBackAgain(groups[7]);
    ParametersBackAgain(groups[8]);
    AllocatorSourcesBackAgain(groups[9]);
    CallsBackAgain(groups[10]);
    CallArgumentsBackAgain(groups[11]);
    MemoryOperationsBackAgain(groups[12]);
    ExpressionsBackAgain(groups[13]);
    FieldAssignmentsBackAgain(groups[14]);
  }

  // ---- One table's columns after another's ---------------------------------------------------------

  function Flat<T>(groups: seq<seq<T>>): seq<T> {
    if groups == [] then [] else groups[0] + Flat(groups[1..])
  }

  /** Columns in a row, cut back into groups as long as the schemas. */
  function Cut(schemas: seq<seq<ColumnKind>>, columns: seq<Column>): seq<seq<Column>>
    requires |columns| == |Flat(schemas)|
  {
    if schemas == [] then []
    else [columns[..|schemas[0]|]] + Cut(schemas[1..], columns[|schemas[0]|..])
  }

  lemma {:induction false} CutMatches(schemas: seq<seq<ColumnKind>>, columns: seq<Column>)
    requires Matches(Flat(schemas), columns)
    ensures MatchesAll(schemas, Cut(schemas, columns)) && Flat(Cut(schemas, columns)) == columns
  {
    if schemas != [] {
      var first, rest := columns[..|schemas[0]|], columns[|schemas[0]|..];
      forall i | 0 <= i < |first|
        ensures MatchesColumn(schemas[0][i], first[i])
      {
        assert MatchesColumn(Flat(schemas)[i], columns[i]);
      }
      forall i | 0 <= i < |rest|
        ensures MatchesColumn(Flat(schemas[1..])[i], rest[i])
      {
        assert MatchesColumn(Flat(schemas)[|schemas[0]| + i], columns[|schemas[0]| + i]);
      }
      CutMatches(schemas[1..], rest);
      var groups := Cut(schemas, columns);
      assert groups[1..] == Cut(schemas[1..], rest);
      forall i | 0 <= i < |groups|
        ensures Matches(schemas[i], groups[i])
      {
        if i > 0 {
          assert Matches(schemas[1..][i - 1], groups[1..][i - 1]);
        }
      }
    }
  }

  lemma {:induction false} FlatMatches(schemas: seq<seq<ColumnKind>>, groups: seq<seq<Column>>)
    requires MatchesAll(schemas, groups)
    ensures Matches(Flat(schemas), Flat(groups)) && Cut(schemas, Flat(groups)) == groups
  {
    if schemas != [] {
      assert Matches(schemas[0], groups[0]);
      forall i | 0 <= i < |groups[1..]|
        ensures Matches(schemas[1..][i], groups[1..][i])
      {
        assert Matches(schemas[i + 1], groups[i + 1]);
      }
      FlatMatches(schemas[1..], groups[1..]);
      MatchesMore(schemas[0], Flat(schemas[1..]), groups[0], Flat(groups[1..]));
      assert Flat(groups)[..|groups[0]|] == groups[0] && Flat(groups)[|groups[0]|..] == Flat(groups[1..]);
    }
  }

  lemma MatchesMore(
    kinds: seq<ColumnKind>, moreKinds: seq<ColumnKind>, columns: seq<Column>, moreColumns: seq<Column>)
    requires Matches(kinds, columns) && Matches(moreKinds, moreColumns)
    ensures Matches(kinds + moreKinds, columns + moreColumns)
  {
  }

  lemma MatchingIsShort(kinds: seq<ColumnKind>, columns: seq<Column>)
    requires Matches(kinds, columns)
    ensures Short(columns)
  {
    assert forall i :: 0 <= i < |columns| ==> MatchesColumn(kinds[i], columns[i]);
  }

  lemma MatchedIsEncodable(tables: Tables)
    requires MatchesAll(SCHEMAS, GroupsOf(tables))
    ensures Encodable(tables)
  {
    var groups := GroupsOf(tables);
    forall i | 0 <= i < |groups|
      ensures Short(groups[i])
    {
      MatchingIsShort(SCHEMAS[i], groups[i]);
    }
    assert Short(groups[0]) && Short(groups[1]) && Short(groups[2]) && Short(groups[3]) && Short(groups[4]);
    assert Short(groups[5]) && Short(groups[6]) && Short(groups[7]) && Short(groups[8]) && Short(groups[9]);
    assert Short(groups[10]) && Short(groups[11]) && Short(groups[12]) && Short(groups[13]) && Short(groups[14]);
  }
}
