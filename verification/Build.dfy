/** Building the tables row by row, and what every such run keeps. */
module Build {
  import opened Basics
  import opened Facts
  import opened Validate

  // ---- Strings ------------------------------------------------------------------------------------

  /** The strings with `text` added at the end. */
  function Appended(strings: Strings, text: seq<u8>): Strings
    requires |strings.bytes| + |text| < 0x1_0000_0000
  {
    Strings(
      strings.bytes + text,
      (if strings.offsets == [] then [0] else strings.offsets) + [|strings.bytes| + |text|])
  }

  /** Adding a string names it, and leaves every other string as it was. */
  lemma AppendedKeepsStrings(strings: Strings, text: seq<u8>)
    requires Sound(strings) && |strings.bytes| + |text| < 0x1_0000_0000 && StringCount(strings) < NO_INDEX
    ensures var after := Appended(strings, text);
            && Sound(after)
            && StringCount(after) == StringCount(strings) + 1
            && StringBytes(after, StringCount(strings)) == text
            && forall id: StringId :: id < StringCount(strings) ==> StringBytes(after, id) == StringBytes(strings, id)
  {
    var after := Appended(strings, text);
    forall id: StringId | id < StringCount(strings)
      ensures StringBytes(after, id) == StringBytes(strings, id)
    {
      OffsetsStayInside(strings, id);
      OffsetsStayInside(strings, id + 1);
      assert strings.offsets[id + 1 - 1] <= strings.offsets[id + 1];
    }
    if strings.offsets == [] {
      assert after.bytes[0..|text|] == text;
    } else {
      assert after.bytes[|strings.bytes|..] == text;
    }
  }

  /** No two handles name the same text. */
  ghost predicate Interned(strings: Strings) {
    forall a: StringId, b: StringId ::
      a < StringCount(strings) && b < StringCount(strings) && StringBytes(strings, a) == StringBytes(strings, b)
      ==> a == b
  }

  /** A text that is new to the pool gives two handles one text exactly where two handles had one before. */
  lemma AppendedStaysInterned(strings: Strings, text: seq<u8>)
    requires Sound(strings)
    requires |strings.bytes| + |text| < 0x1_0000_0000 && StringCount(strings) < NO_INDEX
    requires forall known: StringId :: known < StringCount(strings) ==> StringBytes(strings, known) != text
    ensures Interned(Appended(strings, text)) <==> Interned(strings)
  {
    AppendedKeepsStrings(strings, text);
    var after := Appended(strings, text);
    if Interned(strings) {
      forall a: StringId, b: StringId |
        a < StringCount(after) && b < StringCount(after) && StringBytes(after, a) == StringBytes(after, b)
        ensures a == b
      {
        if a < StringCount(strings) && b < StringCount(strings) {
          assert StringBytes(strings, a) == StringBytes(strings, b);
        }
      }
    }
    if Interned(after) {
      forall a: StringId, b: StringId |
        a < StringCount(strings) && b < StringCount(strings) && StringBytes(strings, a) == StringBytes(strings, b)
        ensures a == b
      {
        assert StringBytes(after, a) == StringBytes(after, b);
      }
    }
  }

  class StringPool {
    var strings: Strings

    constructor ()
      ensures strings == Strings([], [])
    {
      strings := Strings([], []);
    }

    method PushString(text: seq<u8>) returns (id: StringId)
      requires |strings.bytes| + |text| < 0x1_0000_0000 && StringCount(strings) < NO_INDEX
      modifies this
      ensures strings == Appended(old(strings), text) && id == StringCount(old(strings))
    {
      if strings.offsets == [] {
        strings := strings.(offsets := [0]);
      }
      var bytes := strings.bytes + text;
      strings := Strings(bytes, strings.offsets + [|bytes|]);
      id := StringCount(strings) - 1;
    }

    /** The handle of `text`: the first one it already has, or a new one. A pool that `PushString` filled may name a
        text twice; this never adds to that. */
    method Intern(text: seq<u8>) returns (id: StringId)
      requires Sound(strings)
      requires |strings.bytes| + |text| < 0x1_0000_0000 && StringCount(strings) < NO_INDEX
      modifies this
      ensures Sound(strings) && (Interned(strings) <==> Interned(old(strings)))
      ensures id < StringCount(strings) && StringBytes(strings, id) == text
      ensures forall earlier: StringId :: earlier < id ==> StringBytes(strings, earlier) != text
      ensures forall other: StringId :: other < StringCount(old(strings)) ==>
                StringBytes(strings, other) == StringBytes(old(strings), other)
      ensures if exists known: StringId :: known < StringCount(old(strings)) && StringBytes(old(strings), known) == text
              then strings == old(strings)
              else strings == Appended(old(strings), text)
    {
      for index := 0 to StringCount(strings)
        invariant strings == old(strings)
        invariant forall known: StringId :: known < index ==> StringBytes(strings, known) != text
      {
        if StringBytes(strings, index) == text {
          return index;
        }
      }
      AppendedKeepsStrings(strings, text);
      AppendedStaysInterned(strings, text);
      id := PushString(text);
    }
  }

  // ---- Owners and rows ----------------------------------------------------------------------------

  /** A new owner starts where the rows end, so the ranges still tile. */
  lemma NewOwnerKeepsTiling(starts: seq<u32>, counts: seq<u32>, rows: u32)
    requires Tiles(starts, counts, rows)
    ensures Tiles(starts + [rows], counts + [0], rows)
  {
    var longer := starts + [rows];
    forall owner | 0 <= owner < |longer|
      ensures EndsAtNext(longer, counts + [0], rows, owner)
    {
      if owner < |starts| {
        assert EndsAtNext(starts, counts, rows, owner);
      }
    }
  }

  /** One more row keeps the ranges tiling exactly when it goes to the newest owner. */
  lemma NewRowKeepsTilingExactlyWhenNewest(starts: seq<u32>, counts: seq<u32>, rows: nat, owner: nat)
    requires Tiles(starts, counts, rows) && owner < |starts| && counts[owner] < NO_INDEX
    ensures Tiles(starts, counts[owner := counts[owner] + 1], rows + 1) <==> owner == |starts| - 1
  {
    var more := counts[owner := counts[owner] + 1];
    assert EndsAtNext(starts, counts, rows, owner);
    if owner == |starts| - 1 {
      var total := rows + 1;
      forall o | 0 <= o < |starts|
        ensures EndsAtNext(starts, more, total, o)
      {
        assert EndsAtNext(starts, counts, rows, o);
      }
    } else {
      assert !EndsAtNext(starts, more, rows + 1, owner);
    }
  }

  // ---- Builders -------------------------------------------------------------------------------------

  /** One row to add. Fields and parameters go to the struct or function they name. */
  datatype Step =
    | AddStruct(name: StringId, typeId: TypeId, size: u32, alignment: u32, flags: u32)
    | AddField(fieldOwner: StructId, name: StringId, fieldType: TypeId, offset: u32)
    | AddFunction(name: StringId, structOwner: StructId)
    | AddParameter(functionOwner: FunctionId, name: StringId, parameterType: TypeId, flags: u32)

  /** The owner a row names exists, and there is room for one more of everything. */
  ghost predicate Allowed(tables: Tables, step: Step) {
    && |tables.structs.name| < NO_INDEX && |tables.functions.name| < NO_INDEX
    && |tables.fields.owner| < NO_INDEX && |tables.parameters.owner| < NO_INDEX
    && match step
       case AddField(owner, _, _, _) =>
         owner < |tables.structs.fieldCount| && tables.structs.fieldCount[owner] < NO_INDEX
       case AddParameter(owner, _, _, _) =>
         owner < |tables.functions.parameterCount| && tables.functions.parameterCount[owner] < NO_INDEX
       case _ => true
  }

  function WithStruct(tables: Tables, name: StringId, typeId: TypeId, size: u32, alignment: u32, flags: u32): Tables
    requires |tables.fields.owner| <= NO_INDEX
  {
    var s := tables.structs;
    tables.(structs := Structs(
      s.name + [name], s.module_ + [ROOT_MODULE], s.typeId + [typeId], s.fieldStart + [|tables.fields.owner|],
      s.fieldCount + [0], s.size + [size], s.alignment + [alignment], s.flags + [flags], s.deinit + [NO_INDEX],
      s.kind + [StructContainer]))
  }

  function WithField(tables: Tables, owner: StructId, name: StringId, fieldType: TypeId, offset: u32): Tables
    requires owner < |tables.structs.fieldCount| && tables.structs.fieldCount[owner] < NO_INDEX
  {
    var f, s := tables.fields, tables.structs;
    tables.(
      fields := Fields(f.owner + [owner], f.name + [name], f.fieldType + [fieldType], f.offset + [offset]),
      structs := s.(fieldCount := s.fieldCount[owner := s.fieldCount[owner] + 1]))
  }

  function WithFunction(tables: Tables, name: StringId, owner: StructId): Tables
    requires |tables.parameters.owner| <= NO_INDEX
  {
    var f := tables.functions;
    tables.(functions := Functions(
      f.name + [name], f.module_ + [ROOT_MODULE], f.owner + [owner],
      f.parameterStart + [|tables.parameters.owner|], f.parameterCount + [0], f.returns_ + [NO_INDEX],
      f.errorSet + [NO_INDEX], f.flags + [0], f.line + [0], f.body + [NO_INDEX]))
  }

  function WithParameter(tables: Tables, owner: FunctionId, name: StringId, parameterType: TypeId, flags: u32): Tables
    requires owner < |tables.functions.parameterCount| && tables.functions.parameterCount[owner] < NO_INDEX
  {
    var p, f := tables.parameters, tables.functions;
    tables.(
      parameters := Parameters(
        p.owner + [owner], p.name + [name], p.parameterType + [parameterType], p.flags + [flags]),
      functions := f.(parameterCount := f.parameterCount[owner := f.parameterCount[owner] + 1]))
  }

  /** One more value at the end of a column. */
  predicate Grows<T(==)>(before: seq<T>, after: seq<T>, value: T) {
    |after| == |before| + 1 && after[|before|] == value && forall i :: 0 <= i < |before| ==> after[i] == before[i]
  }

  /** A new struct is what it was pushed as: in the root module, without fields, without a `deinit`. */
  lemma NewStructIs(tables: Tables, name: StringId, typeId: TypeId, size: u32, alignment: u32, flags: u32)
    requires |tables.fields.owner| <= NO_INDEX
    ensures var before, after := tables.structs, WithStruct(tables, name, typeId, size, alignment, flags).structs;
            && Grows(before.name, after.name, name) && Grows(before.typeId, after.typeId, typeId)
            && Grows(before.size, after.size, size) && Grows(before.alignment, after.alignment, alignment)
            && Grows(before.flags, after.flags, flags) && Grows(before.module_, after.module_, 0)
            && Grows(before.fieldStart, after.fieldStart, |tables.fields.owner|)
            && Grows(before.fieldCount, after.fieldCount, 0) && Grows(before.deinit, after.deinit, NO_INDEX)
            && Grows(before.kind, after.kind, StructContainer)
    ensures WithStruct(tables, name, typeId, size, alignment, flags).(structs := tables.structs) == tables
  {
  }

  /** A new field is what it was pushed as, its owner has one field more, and nothing else changes. */
  lemma NewFieldIs(tables: Tables, owner: StructId, name: StringId, fieldType: TypeId, offset: u32)
    requires owner < |tables.structs.fieldCount| && tables.structs.fieldCount[owner] < NO_INDEX
    ensures var more := WithField(tables, owner, name, fieldType, offset);
            var before, after := tables.fields, more.fields;
            && Grows(before.owner, after.owner, owner) && Grows(before.name, after.name, name)
            && Grows(before.fieldType, after.fieldType, fieldType) && Grows(before.offset, after.offset, offset)
            && more.structs.fieldCount[owner] == tables.structs.fieldCount[owner] + 1
            && more.structs.(fieldCount := more.structs.fieldCount[owner := tables.structs.fieldCount[owner]])
               == tables.structs
            && more.(fields := tables.fields, structs := tables.structs) == tables
  {
  }

  /** A new function is what it was pushed as: in the root module, without parameters, result, error set or body. */
  lemma NewFunctionIs(tables: Tables, name: StringId, owner: StructId)
    requires |tables.parameters.owner| <= NO_INDEX
    ensures var before, after := tables.functions, WithFunction(tables, name, owner).functions;
            && Grows(before.name, after.name, name) && Grows(before.owner, after.owner, owner)
            && Grows(before.module_, after.module_, 0) && Grows(before.flags, after.flags, 0)
            && Grows(before.parameterStart, after.parameterStart, |tables.parameters.owner|)
            && Grows(before.parameterCount, after.parameterCount, 0) && Grows(before.line, after.line, 0)
            && Grows(before.returns_, after.returns_, NO_INDEX) && Grows(before.errorSet, after.errorSet, NO_INDEX)
            && Grows(before.body, after.body, NO_INDEX)
    ensures WithFunction(tables, name, owner).(functions := tables.functions) == tables
  {
  }

  /** A new parameter is what it was pushed as, its function has one more, and nothing else changes. */
  lemma NewParameterIs(tables: Tables, owner: FunctionId, name: StringId, parameterType: TypeId, flags: u32)
    requires owner < |tables.functions.parameterCount| && tables.functions.parameterCount[owner] < NO_INDEX
    ensures var more := WithParameter(tables, owner, name, parameterType, flags);
            var before, after, counts := tables.parameters, more.parameters, tables.functions.parameterCount;
            && Grows(before.owner, after.owner, owner) && Grows(before.name, after.name, name)
            && Grows(before.parameterType, after.parameterType, parameterType)
            && Grows(before.flags, after.flags, flags)
            && more.functions.parameterCount[owner] == counts[owner] + 1
            && more.functions.(parameterCount := more.functions.parameterCount[owner := counts[owner]])
               == tables.functions
            && more.(parameters := tables.parameters, functions := tables.functions) == tables
  {
  }

  /** The tables after one step. */
  ghost function After(tables: Tables, step: Step): Tables
    requires Allowed(tables, step)
  {
    match step
    case AddStruct(name, typeId, size, alignment, flags) => WithStruct(tables, name, typeId, size, alignment, flags)
    case AddField(owner, name, fieldType, offset) => WithField(tables, owner, name, fieldType, offset)
    case AddFunction(name, owner) => WithFunction(tables, name, owner)
    case AddParameter(owner, name, parameterType, flags) => WithParameter(tables, owner, name, parameterType, flags)
  }

  /** The columns match, and the range checks find nothing. */
  ghost predicate Accepted(tables: Tables) {
    && FieldColumnsMatch(tables) && FieldRangesHold(tables)
    && ParameterColumnsMatch(tables) && ParameterRangesHold(tables)
  }

  /** Runs both range checks over tables under construction. */
  method CheckRanges(tables: Tables) returns (violations: seq<Violation>)
    requires FieldColumnsMatch(tables) && ParameterColumnsMatch(tables)
    ensures violations == [] <==> Accepted(tables)
  {
    var fields := CheckFieldRanges(tables);
    var parameters := CheckParameterRanges(tables);
    violations := fields + parameters;
  }

  /** No field names a struct that is not there yet. */
  ghost predicate OwnersExist(tables: Tables) {
    forall row :: 0 <= row < |tables.fields.owner| ==> tables.fields.owner[row] < StructCount(tables.structs)
  }

  /** A field goes to the newest struct and a parameter to the newest function. */
  predicate ToNewest(tables: Tables, step: Step) {
    match step
    case AddField(owner, _, _, _) => owner as int == StructCount(tables.structs) - 1
    case AddParameter(owner, _, _, _) => owner as int == FunctionCount(tables.functions) - 1
    case _ => true
  }

  /** A step keeps the tables acceptable exactly when it adds to the newest owner. */
  lemma StepKeepsAcceptedExactlyWhenNewest(tables: Tables, step: Step)
    requires Accepted(tables) && OwnersExist(tables) && Allowed(tables, step)
    ensures Accepted(After(tables, step)) <==> ToNewest(tables, step)
    ensures OwnersExist(After(tables, step))
  {
    match step
    case AddStruct(_, _, _, _, _) =>
      NewOwnerKeepsTiling(tables.structs.fieldStart, tables.structs.fieldCount, FieldCount(tables.fields));
    case AddField(owner, _, _, _) =>
      NewRowKeepsTilingExactlyWhenNewest(
        tables.structs.fieldStart, tables.structs.fieldCount, FieldCount(tables.fields), owner);
    case AddFunction(_, _) =>
      NewOwnerKeepsTiling(
        tables.functions.parameterStart, tables.functions.parameterCount, ParameterCount(tables.parameters));
    case AddParameter(owner, _, _, _) =>
      NewRowKeepsTilingExactlyWhenNewest(
        tables.functions.parameterStart, tables.functions.parameterCount, ParameterCount(tables.parameters), owner);
  }

  ghost predicate Runs(tables: Tables, steps: seq<Step>)
    decreases |steps|
  {
    steps == [] ||
    (Allowed(tables, steps[0]) && ToNewest(tables, steps[0]) && Runs(After(tables, steps[0]), steps[1..]))
  }

  ghost function AfterAll(tables: Tables, steps: seq<Step>): Tables
    requires Runs(tables, steps)
    decreases |steps|
  {
    if steps == [] then tables else AfterAll(After(tables, steps[0]), steps[1..])
  }

  /** However long the run, rows added only to the newest owner leave tables the range checks accept. */
  lemma {:induction false} EveryRunStaysAccepted(tables: Tables, steps: seq<Step>)
    requires Accepted(tables) && OwnersExist(tables) && Runs(tables, steps)
    ensures Accepted(AfterAll(tables, steps)) && OwnersExist(AfterAll(tables, steps))
    decreases |steps|
  {
    if steps != [] {
      StepKeepsAcceptedExactlyWhenNewest(tables, steps[0]);
      EveryRunStaysAccepted(After(tables, steps[0]), steps[1..]);
    }
  }

  /** So whatever is built from nothing by such a run, the range checks find nothing wrong with. */
  lemma BuiltFromNothingIsAccepted(steps: seq<Step>)
    requires Runs(EmptyTables(), steps)
    ensures Accepted(AfterAll(EmptyTables(), steps))
  {
    EveryRunStaysAccepted(EmptyTables(), steps);
  }

  /** Tables under construction. */
  class Builder {
    var tables: Tables

    constructor (tables: Tables)
      ensures this.tables == tables
    {
      this.tables := tables;
    }

    method PushStruct(name: StringId, typeId: TypeId, size: u32, alignment: u32, flags: u32) returns (id: StructId)
      requires |tables.fields.owner| <= NO_INDEX && |tables.structs.name| < NO_INDEX
      modifies this
      ensures tables == WithStruct(old(tables), name, typeId, size, alignment, flags)
      ensures id == StructCount(old(tables).structs)
    {
      var s := tables.structs;
      s := s.(name := s.name + [name], module_ := s.module_ + [ROOT_MODULE], typeId := s.typeId + [typeId]);
      s := s.(fieldStart := s.fieldStart + [|tables.fields.owner|], fieldCount := s.fieldCount + [0]);
      s := s.(size := s.size + [size], alignment := s.alignment + [alignment], flags := s.flags + [flags]);
      s := s.(deinit := s.deinit + [NO_INDEX], kind := s.kind + [StructContainer]);
      tables := tables.(structs := s);
      id := |tables.structs.name| - 1;
    }

    method PushField(owner: StructId, name: StringId, fieldType: TypeId, offset: u32) returns (id: FieldId)
      requires owner < |tables.structs.fieldCount| && tables.structs.fieldCount[owner] < NO_INDEX
      requires |tables.fields.owner| < NO_INDEX
      modifies this
      ensures tables == WithField(old(tables), owner, name, fieldType, offset)
      ensures id == FieldCount(old(tables).fields)
    {
      var f := tables.fields;
      f := f.(owner := f.owner + [owner], name := f.name + [name]);
      f := f.(fieldType := f.fieldType + [fieldType], offset := f.offset + [offset]);
      id := |f.owner| - 1;
      var counts := tables.structs.fieldCount;
      tables := tables.(fields := f);
      tables := tables.(structs := tables.structs.(fieldCount := counts[owner := counts[owner] + 1]));
    }

    method PushFunction(name: StringId, owner: StructId) returns (id: FunctionId)
      requires |tables.parameters.owner| <= NO_INDEX && |tables.functions.name| < NO_INDEX
      modifies this
      ensures tables == WithFunction(old(tables), name, owner)
      ensures id == FunctionCount(old(tables).functions)
    {
      var f := tables.functions;
      f := f.(name := f.name + [name], module_ := f.module_ + [ROOT_MODULE], owner := f.owner + [owner]);
      f := f.(parameterStart := f.parameterStart + [|tables.parameters.owner|]);
      f := f.(parameterCount := f.parameterCount + [0], returns_ := f.returns_ + [NO_INDEX]);
      f := f.(errorSet := f.errorSet + [NO_INDEX], flags := f.flags + [0]);
      f := f.(line := f.line + [0], body := f.body + [NO_INDEX]);
      tables := tables.(functions := f);
      id := |tables.functions.name| - 1;
    }

    method PushParameter(owner: FunctionId, name: StringId, parameterType: TypeId, flags: u32)
      requires owner < |tables.functions.parameterCount| && tables.functions.parameterCount[owner] < NO_INDEX
      modifies this
      ensures tables == WithParameter(old(tables), owner, name, parameterType, flags)
    {
      var p := tables.parameters;
      p := p.(owner := p.owner + [owner], name := p.name + [name]);
      p := p.(parameterType := p.parameterType + [parameterType], flags := p.flags + [flags]);
      var counts := tables.functions.parameterCount;
      tables := tables.(parameters := p);
      tables := tables.(functions := tables.functions.(parameterCount := counts[owner := counts[owner] + 1]));
    }
  }
}
