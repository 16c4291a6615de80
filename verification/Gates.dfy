/** What keeps a body from coming across, row by row and over the tables alone. */
module Gates {
  import opened Basics
  import opened Facts
  import opened Expressions
  import opened Lower
  import opened Body
  import Claims
  import Ownership

  // ---- Rows that cannot be written -------------------------------------------------------------------

  ghost predicate IsA(tables: Tables, row: ExpressionId, kind: ExpressionKind) {
    row < |tables.expressions.kind| && tables.expressions.kind[row] == kind
  }

  function OnRow(tables: Tables, row: ExpressionId): seq<u8> {
    if row < |tables.expressions.text| then StringBytes(tables.strings, tables.expressions.text[row]) else []
  }

  ghost predicate IsChild(tables: Tables, row: ExpressionId, child: ExpressionId) {
    var rows := tables.expressions;
    && row < |rows.childStart| && row < |rows.childCount|
    && exists slot: nat ::
         && rows.childStart[row] <= slot < (rows.childStart[row] as int) + rows.childCount[row]
         && slot < |rows.children| && rows.children[slot] == child
  }

  /** The child with none after it, by the row's count and by the column. */
  ghost predicate IsLastChild(tables: Tables, row: ExpressionId, child: ExpressionId) {
    var rows := tables.expressions;
    && row < |rows.childStart| && row < |rows.childCount|
    && var end := Min((rows.childStart[row] as int) + rows.childCount[row], |rows.children|);
       rows.childStart[row] < end && rows.children[end - 1] == child
  }

  /** A kind that has no spelling at all. */
  ghost predicate IsOfNoSpelling(tables: Tables, row: ExpressionId) {
    || row >= |tables.expressions.kind|
    || IsA(tables, row, ExpressionKind.Parameter) || IsA(tables, row, Length) || IsA(tables, row, Allocation)
    || IsA(tables, row, Unsupported) || IsA(tables, row, Null)
  }

  /** A text that means something else, or nothing, where the kind puts it. */
  ghost predicate SaysTheWrongThing(tables: Tables, row: ExpressionId) {
    var text := OnRow(tables, row);
    || text == Ascii("null") || text == Ascii("undefined")
    || (IsA(tables, row, ExpressionKind.Field) && text == Ascii("len"))
    || (IsA(tables, row, Identifier) && (text == Ascii("std") || text == Ascii("builtin")))
    || (IsA(tables, row, Cast) && text == [])
  }

  /** A literal with nothing but digits in it. */
  ghost predicate IsUntypedNumber(tables: Tables, row: ExpressionId) {
    && IsA(tables, row, ExpressionKind.Literal)
    && forall i :: 0 <= i < |OnRow(tables, row)| ==> 48 <= OnRow(tables, row)[i] <= 57
  }

  /** A method call on, or with, a number that has no type. */
  ghost predicate TakesABareNumber(tables: Tables, row: ExpressionId) {
    && IsA(tables, row, Method)
    && exists child: ExpressionId ::
         IsChild(tables, row, child) && IsUntypedNumber(tables, child)
  }

  /** A struct literal that neither fills a field nor has a type with a name. */
  ghost predicate IsALiteralOfNothing(tables: Tables, row: ExpressionId) {
    var rows, types := tables.expressions, tables.types;
    && IsA(tables, row, StructLiteral)
    && (row >= |rows.field| || rows.field[row] == NO_INDEX)
    && var result := if row < |rows.result| then rows.result[row] else NO_INDEX;
       result >= |types.name| || StringBytes(tables.strings, types.name[result]) == []
  }

  /** A call of a function that does not exist, or that has no path from inside the module being written. */
  ghost predicate CallsOutOfReach(tables: Tables, lowering: Lowering, row: ExpressionId) {
    var rows := tables.expressions;
    && IsA(tables, row, Call)
    && (|| row >= |rows.parameter| || rows.parameter[row] == NO_INDEX
        || rows.parameter[row] >= |tables.functions.name|
        || IsOutOfReach(tables, lowering, rows.parameter[row]))
  }

  ghost predicate IsOutOfReach(tables: Tables, lowering: Lowering, callee: FunctionId) {
    var from := if callee < |tables.functions.module_| then tables.functions.module_[callee] else 0;
    && lowering.qualified && from != lowering.module_ && lowering.module_ != 0
    && (from >= |tables.modules.name| || StringBytes(tables.strings, tables.modules.name[from]) == [])
  }

  /** A name of one of the function's allocator parameters. */
  ghost predicate IsTheAllocator(tables: Tables, function_: FunctionId, row: ExpressionId) {
    && IsA(tables, row, Identifier)
    && exists parameter: nat ::
         && ParametersOf(tables, function_).start <= parameter < ParametersOf(tables, function_).end
         && parameter < |tables.parameters.flags| && tables.parameters.flags[parameter] % 2 == 1
         && parameter < |tables.parameters.name|
         && StringBytes(tables.strings, tables.parameters.name[parameter]) == OnRow(tables, row)
  }

  /** A binding or an assignment that would move something owned out of a field. */
  ghost predicate TakesWhatIsOwned(tables: Tables, class_: seq<Ownership.OwnershipClass>, row: ExpressionId) {
    && (IsA(tables, row, Let) || IsA(tables, row, Assign))
    && exists child: ExpressionId ::
         && IsLastChild(tables, row, child) && IsA(tables, child, ExpressionKind.Field)
         && child < |tables.expressions.field| && tables.expressions.field[child] != NO_INDEX
         && tables.expressions.field[child] < |class_|
         && (class_[tables.expressions.field[child]].Owned? || class_[tables.expressions.field[child]].Grown?)
  }

  ghost predicate IsUnwritable(
    tables: Tables, class_: seq<Ownership.OwnershipClass>, lowering: Lowering, function_: FunctionId,
    row: ExpressionId)
  {
    || IsOfNoSpelling(tables, row)
    || SaysTheWrongThing(tables, row)
    || TakesABareNumber(tables, row)
    || IsALiteralOfNothing(tables, row)
    || CallsOutOfReach(tables, lowering, row)
    || IsTheAllocator(tables, function_, row)
    || TakesWhatIsOwned(tables, class_, row)
  }

  // ---- The gates, reason by reason -------------------------------------------------------------------

  lemma ChildrenAreChildren(tables: Tables, row: ExpressionId, child: ExpressionId)
    ensures child in ChildrenOf(tables, row) <==> IsChild(tables, row, child)
  {
    var rows, children := tables.expressions, ChildrenOf(tables, row);
    if child in children {
      var i :| 0 <= i < |children| && children[i] == child;
      ChildrenAre(tables, row, i);
      var slot := rows.childStart[row] + i;
      assert rows.children[slot] == child;
    }
    if IsChild(tables, row, child) {
      var slot: nat :|
        && rows.childStart[row] <= slot < (rows.childStart[row] as int) + rows.childCount[row]
        && slot < |rows.children| && rows.children[slot] == child;
      ChildrenAre(tables, row, slot - rows.childStart[row]);
    }
  }

  lemma LastChildIsLast(tables: Tables, row: ExpressionId, child: ExpressionId)
    ensures IsLastChild(tables, row, child)
            <==> ChildrenOf(tables, row) != [] && ChildrenOf(tables, row)[|ChildrenOf(tables, row)| - 1] == child
  {
  }

  lemma SpelledMeans(tables: Tables, row: ExpressionId)
    ensures IsSpelled(tables, row)
            <==> && !IsOfNoSpelling(tables, row) && !SaysTheWrongThing(tables, row)
                 && !TakesABareNumber(tables, row)
  {
    BareNumbersMean(tables, row);
  }

  lemma BareNumberMeans(tables: Tables, row: ExpressionId)
    ensures IsBareNumber(tables, row) <==> IsUntypedNumber(tables, row)
  {
    assert TextAt(tables, row) == OnRow(tables, row);
  }

  lemma BareNumbersMean(tables: Tables, row: ExpressionId)
    ensures TakesABareNumber(tables, row)
            <==> && KindAt(tables, row) == Some(Method)
                 && exists child :: child in ChildrenOf(tables, row) && IsBareNumber(tables, child)
  {
    forall child: ExpressionId
      ensures child in ChildrenOf(tables, row) <==> IsChild(tables, row, child)
      ensures IsBareNumber(tables, child) <==> IsUntypedNumber(tables, child)
    {
      ChildrenAreChildren(tables, row, child);
      BareNumberMeans(tables, child);
    }
  }

  lemma ShapeMeans(tables: Tables, lowering: Lowering, row: ExpressionId)
    requires !IsOfNoSpelling(tables, row)
    ensures HasShape(tables, lowering, row)
            <==> !IsALiteralOfNothing(tables, row) && !CallsOutOfReach(tables, lowering, row)
  {
  }

  lemma AllocatorMeans(tables: Tables, function_: FunctionId, row: ExpressionId)
    ensures NamesTheAllocator(tables, function_, row) <==> IsTheAllocator(tables, function_, row)
  {
    var range := ParametersOf(tables, function_);
    if NamesTheAllocator(tables, function_, row) {
      var parameter: nat :|
        range.start <= parameter < range.end && IsAllocatorParameter(tables, parameter, TextAt(tables, row));
      assert tables.parameters.flags[parameter] % 2 == 1;
    }
    if IsTheAllocator(tables, function_, row) {
      var parameter: nat :|
        && range.start <= parameter < range.end
        && parameter < |tables.parameters.flags| && tables.parameters.flags[parameter] % 2 == 1
        && parameter < |tables.parameters.name|
        && StringBytes(tables.strings, tables.parameters.name[parameter]) == OnRow(tables, row);
      assert IsAllocatorParameter(tables, parameter, TextAt(tables, row));
    }
  }

  lemma TakingMeans(tables: Tables, class_: seq<Ownership.OwnershipClass>, row: ExpressionId)
    ensures TakesAnOwnedField(tables, class_, row) <==> TakesWhatIsOwned(tables, class_, row)
  {
    var children := ChildrenOf(tables, row);
    forall child: ExpressionId
      ensures IsLastChild(tables, row, child) <==> children != [] && children[|children| - 1] == child
    {
      LastChildIsLast(tables, row, child);
    }
    if TakesAnOwnedField(tables, class_, row) {
      assert IsLastChild(tables, row, children[|children| - 1]);
    }
  }

  /** A row can be written exactly when there is nothing against it. */
  lemma WritableMeans(
    tables: Tables, class_: seq<Ownership.OwnershipClass>, lowering: Lowering, function_: FunctionId,
    row: ExpressionId)
    ensures CanBeWritten(tables, class_, lowering, function_, row)
            <==> !IsUnwritable(tables, class_, lowering, function_, row)
  {
    SpelledMeans(tables, row);
    AllocatorMeans(tables, function_, row);
    TakingMeans(tables, class_, row);
    if !IsOfNoSpelling(tables, row) {
      ShapeMeans(tables, lowering, row);
    }
  }

  // ---- The signature -----------------------------------------------------------------------------------

  /** A parameter of the function reaches a struct with a field the analysis could not finish. */
  ghost predicate ReachesUnfinished(
    tables: Tables, class_: seq<Ownership.OwnershipClass>, function_: FunctionId, parameter: nat, owner: u32,
    field: nat)
  {
    && ParametersOf(tables, function_).start <= parameter < ParametersOf(tables, function_).end
    && parameter < |tables.parameters.parameterType|
    && Claims.IsStructBehind(tables, tables.parameters.parameterType[parameter], 8, owner)
    && FieldsOf(tables, owner).start <= field < FieldsOf(tables, owner).end
    && field < |class_| && class_[field].Unknown?
  }

  lemma ParameterMeans(
    tables: Tables, class_: seq<Ownership.OwnershipClass>, function_: FunctionId, parameter: nat)
    requires Claims.Numbered(tables)
    requires ParametersOf(tables, function_).start <= parameter < ParametersOf(tables, function_).end
    ensures ParameterIsSettled(tables, class_, parameter)
            <==> forall owner: u32, field: nat ::
                   !ReachesUnfinished(tables, class_, function_, parameter, owner, field)
  {
    if parameter < |tables.parameters.parameterType| {
      var declared := tables.parameters.parameterType[parameter];
      var behind := StructBehind(tables, declared, 0);
      forall owner: u32
        ensures behind == Some(owner) <==> Claims.IsStructBehind(tables, declared, 8, owner)
      {
        Claims.StructBehindIs(tables, declared, 0, owner);
      }
      if behind.Some? {
        StructMeans(tables, class_, function_, parameter, behind.value);
      }
    }
  }

  lemma StructMeans(
    tables: Tables, class_: seq<Ownership.OwnershipClass>, function_: FunctionId, parameter: nat, owner: u32)
    requires ParametersOf(tables, function_).start <= parameter < ParametersOf(tables, function_).end
    requires parameter < |tables.parameters.parameterType|
    requires StructBehind(tables, tables.parameters.parameterType[parameter], 0) == Some(owner)
    requires Claims.IsStructBehind(tables, tables.parameters.parameterType[parameter], 8, owner)
    ensures ParameterIsSettled(tables, class_, parameter)
            <==> forall field: nat :: !ReachesUnfinished(tables, class_, function_, parameter, owner, field)
  {
    var fields := FieldsOf(tables, owner);
    forall field: nat
      ensures ReachesUnfinished(tables, class_, function_, parameter, owner, field)
              <==> fields.start <= field < fields.end && Get(class_, field) == Some(Ownership.Unknown)
    {
    }
  }

  lemma SettledMeans(tables: Tables, class_: seq<Ownership.OwnershipClass>, function_: FunctionId)
    requires Claims.Numbered(tables)
    ensures SignatureIsSettled(tables, class_, function_)
            <==> forall parameter: nat, owner: u32, field: nat ::
                   !ReachesUnfinished(tables, class_, function_, parameter, owner, field)
  {
    var range := ParametersOf(tables, function_);
    if SignatureIsSettled(tables, class_, function_) {
      forall parameter: nat, owner: u32, field: nat
        ensures !ReachesUnfinished(tables, class_, function_, parameter, owner, field)
      {
        if range.start <= parameter < range.end {
          assert ParameterIsSettled(tables, class_, parameter);
          ParameterMeans(tables, class_, function_, parameter);
        }
      }
    } else {
      var parameter: nat :| range.start <= parameter < range.end && !ParameterIsSettled(tables, class_, parameter);
      ParameterMeans(tables, class_, function_, parameter);
    }
  }

  /**
   * A body is written exactly when no parameter reaches a struct that is not finished, there is a block with something
   * in it, and no chain of rows down from that block is longer than 32 or ends in a row that something is against.
   */
  lemma BodyIsWrittenExactlyWhen(
    tables: Tables, class_: seq<Ownership.OwnershipClass>, lowering: Lowering, function_: FunctionId)
    requires Claims.Numbered(tables)
    ensures BodyTrees(tables, class_, lowering, function_).Some?
            <==> && (forall parameter: nat, owner: u32, field: nat ::
                       !ReachesUnfinished(tables, class_, function_, parameter, owner, field))
                 && HasBody(tables, function_)
                 && (forall path :: IsChain(Down(tables), tables.functions.body[function_], path) ==>
                       |path| <= 32 && !IsUnwritable(tables, class_, lowering, function_, End(path)))
  {
    WrittenExactlyWhenAllOfItCanBe(tables, class_, lowering, function_);
    SettledMeans(tables, class_, function_);
    forall row: ExpressionId
      ensures CanBeWritten(tables, class_, lowering, function_, row)
              <==> !IsUnwritable(tables, class_, lowering, function_, row)
    {
      WritableMeans(tables, class_, lowering, function_, row);
    }
  }
}
