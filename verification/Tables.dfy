/** The fact tables: columns of handles and enumerations, one row per fact. */
module Basics {
  type u8 = x: int | 0 <= x < 256
  type u32 = x: int | 0 <= x < 0x1_0000_0000

  /** The handle that names nothing. */
  const NO_INDEX: u32 := 0xFFFF_FFFF

  datatype Option<+T> = None | Some(value: T)

  datatype Result<+T, +E> = Ok(value: T) | Err(error: E)

  /** A checked column read: a row past the end of a short column is absent. */
  function Get<T>(column: seq<T>, row: int): Option<T> {
    if 0 <= row < |column| then Some(column[row]) else None
  }

  function OrElse<T>(found: Option<T>, other: T): T {
    if found.Some? then found.value else other
  }

  /** A count stored in a `u32`: its low 32 bits. */
  function AsU32(count: nat): u32 {
    if count < 0x1_0000_0000 then count else count % 0x1_0000_0000
  }

  function Min(a: nat, b: nat): nat {
    if a <= b then a else b
  }

  function Byte(c: char): u8 {
    if c as int < 256 then c as int else 0
  }

  /** The bytes of an ASCII literal. */
  function Ascii(text: string): seq<u8> {
    seq(|text|, i requires 0 <= i < |text| => Byte(text[i]))
  }
}

module Facts {
  import opened Basics

  type StringId = u32
  type ModuleId = u32
  type TypeId = u32
  type StructId = u32
  type FieldId = u32
  type FunctionId = u32
  type CallId = u32
  type AllocatorSourceId = u32
  type MemoryOperationId = u32
  type ExpressionId = u32

  const ROOT_MODULE: ModuleId := 0
  const PARAMETER_FLAG_ALLOCATOR: u32 := 1
  const FUNCTION_FLAG_FALLIBLE: u32 := 1

  datatype ArtifactKind = Executable | Library | Test

  datatype ContainerKind = StructContainer | EnumContainer | UnionContainer | ErrorSet

  datatype TypeKind =
    | Void | Integer | Bool | Slice | Pointer | Struct | Opaque | Optional | Array | Float

  datatype AllocatorSourceKind = GlobalSource | ArenaSource | ParameterSource | UnknownSource

  datatype MemoryOperationKind = Allocate | Free | Resize

  datatype PlaceKind = FieldOfParameter | Local | UnknownPlace

  datatype AssignmentSource = FromAllocation | FromParameter | FromLiteral | FromUnknown

  datatype ExpressionKind =
    | Literal | Parameter | Length | Cast | Allocation | StructLiteral | Unsupported | Null
    | Identifier | Field | Binary | Unary | Index | Call | Branch | Block | Return | Let
    | Assign | Group | Question | Method | While | For | Match | Arm | Wrap

  datatype Strings = Strings(bytes: seq<u8>, offsets: seq<u32>)

  datatype Modules = Modules(
    name: seq<StringId>,
    path: seq<StringId>,
    unresolvedStart: seq<u32>,
    unresolvedCount: seq<u32>)

  datatype UnresolvedImports = UnresolvedImports(owner: seq<ModuleId>, name: seq<StringId>)

  datatype Artifacts = Artifacts(name: seq<StringId>, root: seq<ModuleId>, kind: seq<ArtifactKind>)

  datatype Types = Types(
    kind: seq<TypeKind>,
    element: seq<TypeId>,
    count: seq<u32>,
    module_: seq<ModuleId>,
    name: seq<StringId>,
    size: seq<u32>,
    alignment: seq<u32>,
    bitWidth: seq<u32>,
    flags: seq<u32>)

  datatype Structs = Structs(
    name: seq<StringId>,
    module_: seq<ModuleId>,
    typeId: seq<TypeId>,
    fieldStart: seq<u32>,
    fieldCount: seq<u32>,
    size: seq<u32>,
    alignment: seq<u32>,
    flags: seq<u32>,
    deinit: seq<FunctionId>,
    kind: seq<ContainerKind>)

  datatype Fields = Fields(
    owner: seq<StructId>,
    name: seq<StringId>,
    fieldType: seq<TypeId>,
    offset: seq<u32>)

  datatype Functions = Functions(
    name: seq<StringId>,
    module_: seq<ModuleId>,
    owner: seq<StructId>,
    parameterStart: seq<u32>,
    parameterCount: seq<u32>,
    returns_: seq<TypeId>,
    errorSet: seq<StructId>,
    flags: seq<u32>,
    line: seq<u32>,
    body: seq<ExpressionId>)

  datatype Parameters = Parameters(
    owner: seq<FunctionId>,
    name: seq<StringId>,
    parameterType: seq<TypeId>,
    flags: seq<u32>)

  datatype AllocatorSources = AllocatorSources(
    kind: seq<AllocatorSourceKind>,
    function_: seq<FunctionId>,
    parameterIndex: seq<u32>)

  datatype Calls = Calls(caller: seq<FunctionId>, callee: seq<FunctionId>)

  datatype CallArguments = CallArguments(
    call: seq<CallId>,
    parameterIndex: seq<u32>,
    source: seq<AllocatorSourceId>)

  datatype MemoryOperations = MemoryOperations(
    function_: seq<FunctionId>,
    kind: seq<MemoryOperationKind>,
    allocator: seq<AllocatorSourceId>,
    place: seq<PlaceKind>,
    placeField: seq<FieldId>)

  datatype Expressions = Expressions(
    kind: seq<ExpressionKind>,
    text: seq<StringId>,
    parameter: seq<u32>,
    result: seq<TypeId>,
    childStart: seq<u32>,
    childCount: seq<u32>,
    children: seq<ExpressionId>,
    field: seq<FieldId>,
    line: seq<u32>)

  datatype FieldAssignments = FieldAssignments(
    field: seq<FieldId>,
    function_: seq<FunctionId>,
    source: seq<AssignmentSource>,
    memoryOperation: seq<MemoryOperationId>,
    expression: seq<ExpressionId>,
    line: seq<u32>)

  datatype Tables = Tables(
    target: StringId,
    strings: Strings,
    modules: Modules,
    unresolvedImports: UnresolvedImports,
    artifacts: Artifacts,
    types: Types,
    structs: Structs,
    fields: Fields,
    functions: Functions,
    parameters: Parameters,
    allocatorSources: AllocatorSources,
    calls: Calls,
    callArguments: CallArguments,
    memoryOperations: MemoryOperations,
    expressions: Expressions,
    fieldAssignments: FieldAssignments)

  /** Tables of a program with nothing in it but its root module. */
  function EmptyTables(): Tables {
    Tables(
      NO_INDEX,
      Strings([], []),
      Modules([NO_INDEX], [NO_INDEX], [0], [0]),
      UnresolvedImports([], []),
      Artifacts([], [], []),
      Types([], [], [], [], [], [], [], [], []),
      Structs([], [], [], [], [], [], [], [], [], []),
      Fields([], [], [], []),
      Functions([], [], [], [], [], [], [], [], [], []),
      Parameters([], [], [], []),
      AllocatorSources([], [], []),
      Calls([], []),
      CallArguments([], [], []),
      MemoryOperations([], [], [], [], []),
      Expressions([], [], [], [], [], [], [], [], []),
      FieldAssignments([], [], [], [], [], []))
  }

  function StringCount(strings: Strings): nat {
    if |strings.offsets| == 0 then 0 else |strings.offsets| - 1
  }

  /** The text a handle names; a handle or an offset pair that names nothing reads as empty. */
  function StringBytes(strings: Strings, id: StringId): seq<u8> {
    if id + 1 >= |strings.offsets| then []
    else
      var start, end := strings.offsets[id], strings.offsets[id + 1];
      if start > end || end > |strings.bytes| then [] else strings.bytes[start..end]
  }

  /** The text named by one row of a column of names, empty where the row does not exist. */
  function NameAt(tables: Tables, column: seq<StringId>, row: nat): seq<u8> {
    match Get(column, row)
    case Some(name) => StringBytes(tables.strings, name)
    case None => []
  }

  function StructCount(structs: Structs): nat { |structs.name| }

  function FieldCount(fields: Fields): nat { |fields.owner| }

  function FunctionCount(functions: Functions): nat { |functions.name| }

  function ParameterCount(parameters: Parameters): nat { |parameters.owner| }

  function CallCount(calls: Calls): nat { |calls.caller| }

  function MemoryOperationCount(operations: MemoryOperations): nat { |operations.function_| }

  /** A half-open range of rows. */
  datatype Range = Range(start: nat, end: nat)

  /** The rows a start and a count column give an owner, empty where either column is short. */
  function RangeOf(starts: seq<u32>, counts: seq<u32>, owner: nat): Range {
    if owner < |starts| && owner < |counts| then
      var start: nat := starts[owner];
      Range(start, start + counts[owner])
    else Range(0, 0)
  }

  /** A claimed range cut down to the rows that exist. */
  function Bounded(range: Range, rows: nat): (r: Range)
    ensures r.start <= r.end <= rows
  {
    var end := Min(range.end, rows);
    Range(Min(range.start, end), end)
  }

  function FieldsOf(tables: Tables, id: StructId): (r: Range)
    ensures r.start <= r.end <= FieldCount(tables.fields)
  {
    Bounded(RangeOf(tables.structs.fieldStart, tables.structs.fieldCount, id), FieldCount(tables.fields))
  }

  function ParametersOf(tables: Tables, id: FunctionId): (r: Range)
    ensures r.start <= r.end <= ParameterCount(tables.parameters)
  {
    Bounded(RangeOf(tables.functions.parameterStart, tables.functions.parameterCount, id),
            ParameterCount(tables.parameters))
  }

  /** Whether the type owns memory somewhere else, looking through at most `links` options. */
  predicate IsReferenceWithin(types: Types, id: TypeId, links: nat)
    decreases links
  {
    links > 0 && id < |types.kind| &&
    match types.kind[id]
    case Slice | Pointer => true
    case Optional => id < |types.element| && IsReferenceWithin(types, types.element[id], links - 1)
    case _ => false
  }

  predicate IsReferenceType(types: Types, id: TypeId) {
    IsReferenceWithin(types, id, 8)
  }

  /** The type that many options in, where all of those are options that wrap something. */
  function BehindOptions(types: Types, id: TypeId, options: nat): Option<TypeId>
    decreases options
  {
    if options == 0 then Some(id)
    else if Get(types.kind, id) != Some(Optional) then None
    else
      match Get(types.element, id)
      case Some(element) => BehindOptions(types, element, options - 1)
      case None => None
  }

  predicate PointsElsewhere(types: Types, id: Option<TypeId>) {
    id.Some? && (Get(types.kind, id.value) == Some(Slice) || Get(types.kind, id.value) == Some(Pointer))
  }

  ghost predicate SomeOptionPoints(types: Types, id: TypeId, bound: nat) {
    exists options: nat :: options < bound && PointsElsewhere(types, BehindOptions(types, id, options))
  }

  lemma OptionsOneIn(types: Types, id: TypeId, bound: nat)
    requires bound > 0 && !PointsElsewhere(types, Some(id))
    ensures SomeOptionPoints(types, id, bound) <==>
              BehindOptions(types, id, 1).Some? && SomeOptionPoints(types, BehindOptions(types, id, 1).value, bound - 1)
  {
    assert BehindOptions(types, id, 0) == Some(id);
    if SomeOptionPoints(types, id, bound) {
      var options: nat :| options < bound && PointsElsewhere(types, BehindOptions(types, id, options));
      assert BehindOptions(types, id, options) == BehindOptions(types, types.element[id], options - 1);
    }
    if BehindOptions(types, id, 1).Some? && SomeOptionPoints(types, BehindOptions(types, id, 1).value, bound - 1) {
      var element := BehindOptions(types, id, 1).value;
      var options: nat :| options < bound - 1 && PointsElsewhere(types, BehindOptions(types, element, options));
      assert BehindOptions(types, id, options + 1) == BehindOptions(types, element, options);
    }
  }

  /** A type is a reference exactly when fewer than that many options wrap a slice or a pointer. */
  lemma {:induction false} ReferencesAreBehindOptions(types: Types, id: TypeId, links: nat)
    ensures IsReferenceWithin(types, id, links) <==> SomeOptionPoints(types, id, links)
    decreases links
  {
    assert BehindOptions(types, id, 0) == Some(id);
    if links > 0 && !PointsElsewhere(types, Some(id)) {
      OptionsOneIn(types, id, links);
      if BehindOptions(types, id, 1).Some? {
        ReferencesAreBehindOptions(types, types.element[id], links - 1);
      }
    }
  }

  method ReferenceType(types: Types, id: TypeId) returns (reference: bool)
    ensures reference <==> IsReferenceType(types, id)
  {
    var current: TypeId := id;
    for step := 0 to 8
      invariant IsReferenceType(types, id) <==> IsReferenceWithin(types, current, 8 - step)
    {
      if current >= |types.kind| {
        return false;
      }
      match types.kind[current] {
        case Slice | Pointer => return true;
        case Optional =>
          if current >= |types.element| {
            return false;
          }
          current := types.element[current];
        case _ => return false;
      }
    }
    reference := false;
  }
}
