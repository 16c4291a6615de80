/** Which parameter an index of a function names, wherever the parameter ranges tile. */
module Slots {
  import opened Basics
  import opened Facts
  import opened Provenance
  import opened Validate

  // ---- Indexes and rows ---------------------------------------------------------------------------

  /** Two indexes of one function that both resolve name rows as far apart as they are. */
  lemma SlotsAreAsFarApart(tables: Tables, func: FunctionId, one: u32, other: u32)
    requires GlobalParameterIndex(tables, func, one).Some? && GlobalParameterIndex(tables, func, other).Some?
    ensures GlobalParameterIndex(tables, func, other).value - GlobalParameterIndex(tables, func, one).value
         == other - one
    ensures GlobalParameterIndex(tables, func, 0) == Some(ParametersOf(tables, func).start)
  {
  }

  /** `slot` is a parameter of the function, and that many of its parameters come before it. */
  predicate IsParameterOf(tables: Tables, func: FunctionId, index: nat, slot: nat) {
    var range := ParametersOf(tables, func);
    range.start <= slot < range.end && slot - range.start == index
  }

  /** Where the ranges tile, an index resolves exactly to the parameter at that place of the function's list. */
  lemma IndexIsThePlace(tables: Tables, func: FunctionId, index: u32, slot: nat)
    requires func != NO_INDEX && ParameterRangesHold(tables) && ParameterColumnsMatch(tables)
    ensures GlobalParameterIndex(tables, func, index) == Some(slot) <==> IsParameterOf(tables, func, index, slot)
  {
    if func < |tables.functions.parameterStart| {
      RangesStayInside(
        tables.functions.parameterStart, tables.functions.parameterCount, ParameterCount(tables.parameters), func);
    }
  }

  /** How many parameters a function declares. */
  function DeclaredParameters(tables: Tables, func: FunctionId): nat {
    OrElse(Get(tables.functions.parameterCount, func), 0)
  }

  /** Some index of the function resolves to the row. */
  ghost predicate IsNamed(tables: Tables, func: FunctionId, row: nat) {
    exists index: u32 :: GlobalParameterIndex(tables, func, index) == Some(row)
  }

  /**
   * The indexes below a function's count are its parameters: they resolve, in ascending order, to rows of its range,
   * every row of the range is the answer to one of them, and no other index resolves.
   */
  lemma IndexesAreTheParameters(tables: Tables, func: FunctionId)
    requires func != NO_INDEX && ParameterRangesHold(tables) && ParameterColumnsMatch(tables)
    ensures var range := ParametersOf(tables, func);
            && range.end - range.start == DeclaredParameters(tables, func)
            && (forall index: u32 ::
                  GlobalParameterIndex(tables, func, index).Some? <==> index < DeclaredParameters(tables, func))
            && (forall index: u32 :: index < DeclaredParameters(tables, func) ==>
                  range.start <= GlobalParameterIndex(tables, func, index).value < range.end)
            && (forall one: u32, other: u32 :: one < other < DeclaredParameters(tables, func) ==>
                  GlobalParameterIndex(tables, func, one).value < GlobalParameterIndex(tables, func, other).value)
            && (forall row: nat :: range.start <= row < range.end ==> IsNamed(tables, func, row))
  {
    var range := ParametersOf(tables, func);
    if func < |tables.functions.parameterStart| {
      RangesStayInside(
        tables.functions.parameterStart, tables.functions.parameterCount, ParameterCount(tables.parameters), func);
    }
    forall row: nat | range.start <= row < range.end
      ensures IsNamed(tables, func, row)
    {
      var index: u32 := row - range.start;
      IndexIsThePlace(tables, func, index, row);
      assert GlobalParameterIndex(tables, func, index) == Some(row);
    }
  }

  /** Where the ranges tile, the fields of a struct are the rows its range claims. */
  lemma FieldsAreTheRange(tables: Tables, owner: StructId, row: nat)
    requires FieldRangesHold(tables) && owner < |tables.structs.fieldStart|
    ensures FieldsOf(tables, owner).start <= row < FieldsOf(tables, owner).end
            <==> InRangeOf(tables.structs.fieldStart, tables.structs.fieldCount, owner, row)
  {
    RangesStayInside(tables.structs.fieldStart, tables.structs.fieldCount, FieldCount(tables.fields), owner);
  }

  // ---- Arguments and sources ----------------------------------------------------------------------

  /** The argument's call and callee exist, and it hands its allocator to the callee's parameter at that index. */
  ghost predicate Hands(tables: Tables, row: nat, callee: FunctionId, index: u32) {
    var arguments := tables.callArguments;
    && row < |arguments.call| && row < |arguments.parameterIndex| && row < |arguments.source|
    && arguments.call[row] < |tables.calls.callee|
    && tables.calls.callee[arguments.call[row]] == callee && callee != NO_INDEX
    && arguments.parameterIndex[row] == index
  }

  /** Where the ranges tile, an argument fills exactly the parameter of its callee that it is handed to. */
  lemma ArgumentFills(tables: Tables, row: nat, slot: nat)
    requires ParameterRangesHold(tables) && ParameterColumnsMatch(tables)
    ensures TargetOf(tables, row) == Some(slot)
            <==> exists callee: FunctionId, index: u32 ::
                   Hands(tables, row, callee, index) && IsParameterOf(tables, callee, index, slot)
  {
    forall callee: FunctionId, index: u32 | Hands(tables, row, callee, index)
      ensures TargetOf(tables, row) == Some(slot) <==> IsParameterOf(tables, callee, index, slot)
    {
      IndexIsThePlace(tables, callee, index, slot);
    }
    if TargetOf(tables, row) == Some(slot) {
      var callee := tables.calls.callee[tables.callArguments.call[row]];
      assert Hands(tables, row, callee, tables.callArguments.parameterIndex[row]);
    }
  }

  /** A parameter source stands for the parameter at its index, and for a conflict where there is none. */
  lemma ParameterSourceReads(tables: Tables, source: AllocatorSourceId, slot: nat)
    requires ParameterRangesHold(tables) && ParameterColumnsMatch(tables)
    requires Get(tables.allocatorSources.kind, source) == Some(ParameterSource)
    ensures OriginOf(tables, source) == FromSlot(slot)
            <==> exists func: FunctionId, index: u32 ::
                   && Get(tables.allocatorSources.function_, source) == Some(func) && func != NO_INDEX
                   && Get(tables.allocatorSources.parameterIndex, source) == Some(index)
                   && IsParameterOf(tables, func, index, slot)
    ensures OriginOf(tables, source) == Concrete(Conflicting) || OriginOf(tables, source).FromSlot?
  {
    var func := Get(tables.allocatorSources.function_, source);
    var index := Get(tables.allocatorSources.parameterIndex, source);
    if func.Some? && index.Some? && func.value != NO_INDEX {
      IndexIsThePlace(tables, func.value, index.value, slot);
    }
  }
}
