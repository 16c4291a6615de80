/** What one row of a body says about failing, over the tables, and what a function is called for it. */
module Claims {
  import opened Basics
  import opened Facts
  import opened CallGraph
  import opened Expressions
  import opened F = Failure
  import opened Reading
  import opened Naming
  import Ownership

  // ---- What is written on a row -------------------------------------------------------------------

  /** The text a row's handle names, where it has one. */
  function WrittenOn(tables: Tables, expression: ExpressionId): seq<u8> {
    var texts := tables.expressions.text;
    if expression < |texts| && texts[expression] != NO_INDEX then StringBytes(tables.strings, texts[expression]) else []
  }

  ghost predicate IsOfKind(tables: Tables, expression: ExpressionId, kind: ExpressionKind) {
    expression < |tables.expressions.kind| && tables.expressions.kind[expression] == kind
  }

  /** The first row below another. */
  ghost predicate IsFirstChild(tables: Tables, expression: ExpressionId, child: ExpressionId) {
    var rows := tables.expressions;
    && expression < |rows.childStart| && expression < |rows.childCount| && rows.childCount[expression] > 0
    && rows.childStart[expression] < |rows.children| && rows.children[rows.childStart[expression]] == child
  }

  lemma FirstChildIs(tables: Tables, expression: ExpressionId, child: ExpressionId)
    ensures FirstChild(tables, expression) == Some(child) <==> IsFirstChild(tables, expression, child)
  {
  }

  // ---- Members of error sets ----------------------------------------------------------------------

  predicate TwoColons(text: seq<u8>, at: nat) {
    at + 1 < |text| && text[at] == 58 && text[at + 1] == 58
  }

  ghost predicate HasTwoColons(text: seq<u8>) {
    exists at: nat :: TwoColons(text, at)
  }

  /**
   * A text is a name, `::` and anything. The name has no `::` in it, and none that the colon after it would make: what
   * comes after a name that ends in a colon starts one colon too late.
   */
  ghost predicate IsMemberOf(text: seq<u8>, name: seq<u8>) {
    name + [58, 58] <= text && !HasTwoColons(name + [58])
  }

  ghost predicate IsErrorSetCalled(tables: Tables, id: nat, name: seq<u8>) {
    && id < |tables.structs.name| && StringBytes(tables.strings, tables.structs.name[id]) == name
    && id < |tables.structs.kind| && tables.structs.kind[id] == ErrorSet
  }

  ghost predicate IsFirstErrorSet(tables: Tables, id: nat, name: seq<u8>) {
    && IsErrorSetCalled(tables, id, name)
    && forall earlier: nat :: earlier < id ==> !IsErrorSetCalled(tables, earlier, name)
  }

  lemma ColonsAreTwo(text: seq<u8>, at: nat)
    ensures ColonsAt(text, at) <==> TwoColons(text, at)
  {
    assert Ascii("::") == [58, 58];
    if at + 2 <= |text| {
      assert text[at..at + 2] == [text[at], text[at + 1]];
    }
  }

  lemma MemberSplits(text: seq<u8>, name: seq<u8>)
    ensures IsMemberOf(text, name)
            <==> FirstColons(text, 0).Some? && text[..FirstColons(text, 0).value] == name
  {
    var first := FirstColons(text, 0);
    forall at: nat
      ensures ColonsAt(text, at) <==> TwoColons(text, at)
    {
      ColonsAreTwo(text, at);
    }
    if IsMemberOf(text, name) {
      NameEndsAtColons(text, name);
    } else if first.Some? && text[..first.value] == name {
      assert text[first.value] == 58 && text[first.value + 1] == 58;
      assert name + [58, 58] == text[..first.value + 2];
      assert name + [58] == text[..first.value + 1];
      var at: nat :| TwoColons(name + [58], at);
      assert TwoColons(text, at);
    }
  }

  lemma NameEndsAtColons(text: seq<u8>, name: seq<u8>)
    requires IsMemberOf(text, name) && forall at: nat :: ColonsAt(text, at) <==> TwoColons(text, at)
    ensures FirstColons(text, 0) == Some(|name|) && text[..|name|] == name
  {
    assert text[..|name| + 2] == name + [58, 58];
    assert text[|name|] == text[..|name| + 2][|name|] && text[|name| + 1] == text[..|name| + 2][|name| + 1];
    assert TwoColons(text, |name|);
    forall at: nat | at < |name|
      ensures !TwoColons(text, at)
    {
      assert text[at] == (name + [58])[at] && text[at + 1] == (name + [58])[at + 1] by {
        assert text[at] == text[..|name| + 2][at] && text[at + 1] == text[..|name| + 2][at + 1];
      }
      assert !TwoColons(name + [58], at);
    }
    assert text[..|name|] == text[..|name| + 2][..|name|];
  }

  lemma {:induction false} FirstErrorSetIs(tables: Tables, name: seq<u8>, from: nat, id: nat)
    requires StructCount(tables.structs) <= 0x1_0000_0000
    requires forall earlier: nat :: earlier < from ==> !IsErrorSetCalled(tables, earlier, name)
    ensures (FirstErrorSet(tables, name, from).Some? && FirstErrorSet(tables, name, from).value == id)
            <==> IsFirstErrorSet(tables, id, name)
    decreases |tables.structs.name| - from
  {
    if from < |tables.structs.name| && !IsErrorSetCalled(tables, from, name) {
      FirstErrorSetIs(tables, name, from + 1, id);
    }
  }

  /** A text is read as a member of the first error set with the name before its first `::`. */
  lemma ErrorSetNamedIs(tables: Tables, text: seq<u8>, id: u32)
    requires StructCount(tables.structs) <= 0x1_0000_0000
    ensures ErrorSetNamed(tables, text) == Some(id)
            <==> exists name :: IsMemberOf(text, name) && IsFirstErrorSet(tables, id, name)
  {
    match FirstColons(text, 0)
    case None =>
      forall name
        ensures !IsMemberOf(text, name)
      {
        MemberSplits(text, name);
      }
    case Some(at) =>
      MemberSplits(text, text[..at]);
      FirstErrorSetIs(tables, text[..at], 0, id);
      forall name | IsMemberOf(text, name)
        ensures name == text[..at]
      {
        MemberSplits(text, name);
      }
  }

  // ---- Methods ------------------------------------------------------------------------------------

  ghost predicate IsFirstStructOf(tables: Tables, owner: nat, kind: TypeId) {
    && owner < |tables.structs.name| && Get(tables.structs.typeId, owner) == Some(kind)
    && forall earlier: nat :: earlier < owner ==> Get(tables.structs.typeId, earlier) != Some(kind)
  }

  ghost predicate IsStructAt(types: Types, kind: TypeId, links: nat) {
    var at := Ownership.ElementAt(types, kind, links);
    at.Some? && Get(types.kind, at.value) == Some(TypeKind.Struct)
  }

  /** The first struct type on the way through fewer than `bound` element links, and the first row declared for it. */
  ghost predicate IsStructBehind(tables: Tables, kind: TypeId, bound: nat, owner: nat) {
    exists links: nat ::
      && links < bound && IsStructAt(tables.types, kind, links)
      && (forall fewer: nat :: fewer < links ==> !IsStructAt(tables.types, kind, fewer))
      && IsFirstStructOf(tables, owner, Ownership.ElementAt(tables.types, kind, links).value)
  }

  lemma {:induction false} FirstStructIs(tables: Tables, kind: TypeId, from: nat, owner: nat)
    requires StructCount(tables.structs) <= 0x1_0000_0000
    requires forall earlier: nat :: earlier < from ==> Get(tables.structs.typeId, earlier) != Some(kind)
    ensures (FirstStruct(tables, kind, from).Some? && FirstStruct(tables, kind, from).value == owner)
            <==> IsFirstStructOf(tables, owner, kind)
    decreases |tables.structs.name| - from
  {
    if from < |tables.structs.name| && Get(tables.structs.typeId, from) != Some(kind) {
      FirstStructIs(tables, kind, from + 1, owner);
    }
  }

  lemma StructBehindOneOn(tables: Tables, kind: TypeId, bound: nat, owner: nat)
    requires bound > 0 && !IsStructAt(tables.types, kind, 0)
    ensures IsStructBehind(tables, kind, bound, owner)
            <==> && Ownership.ElementAt(tables.types, kind, 1).Some?
                 && IsStructBehind(tables, Ownership.ElementAt(tables.types, kind, 1).value, bound - 1, owner)
  {
    var types, next := tables.types, Ownership.ElementAt(tables.types, kind, 1);
    if next.Some? {
      forall links: nat
        ensures Ownership.ElementAt(types, kind, links + 1) == Ownership.ElementAt(types, next.value, links)
        ensures IsStructAt(types, kind, links + 1) <==> IsStructAt(types, next.value, links)
      {
      }
    }
    if IsStructBehind(tables, kind, bound, owner) {
      var links: nat :|
        && links < bound && IsStructAt(types, kind, links)
        && (forall fewer: nat :: fewer < links ==> !IsStructAt(types, kind, fewer))
        && IsFirstStructOf(tables, owner, Ownership.ElementAt(types, kind, links).value);
      assert links > 0;
      assert Ownership.ElementAt(types, kind, links - 1 + 1) == Ownership.ElementAt(types, next.value, links - 1);
      forall fewer: nat | fewer < links - 1
        ensures !IsStructAt(types, next.value, fewer)
      {
        assert !IsStructAt(types, kind, fewer + 1);
      }
    }
    if next.Some? && IsStructBehind(tables, next.value, bound - 1, owner) {
      var links: nat :|
        && links < bound - 1 && IsStructAt(types, next.value, links)
        && (forall fewer: nat :: fewer < links ==> !IsStructAt(types, next.value, fewer))
        && IsFirstStructOf(tables, owner, Ownership.ElementAt(types, next.value, links).value);
      assert IsStructAt(types, kind, links + 1);
      forall fewer: nat | fewer < links + 1
        ensures !IsStructAt(types, kind, fewer)
      {
        if fewer > 0 {
          assert !IsStructAt(types, next.value, fewer - 1);
        }
      }
    }
  }

  /** The struct a type reaches is the first on the way through its element links, at most eight types in all. */
  lemma {:induction false} StructBehindIs(tables: Tables, kind: TypeId, depth: nat, owner: nat)
    requires StructCount(tables.structs) <= 0x1_0000_0000 && depth <= 8
    ensures (StructBehind(tables, kind, depth).Some? && StructBehind(tables, kind, depth).value == owner)
            <==> IsStructBehind(tables, kind, 8 - depth, owner)
    decreases 8 - depth
  {
    if depth < 8 {
      var types := tables.types;
      assert Ownership.ElementAt(types, kind, 0) == Some(kind);
      if IsStructAt(types, kind, 0) {
        FirstStructIs(tables, kind, 0, owner);
      } else {
        StructBehindOneOn(tables, kind, 8 - depth, owner);
        var next := Ownership.ElementAt(types, kind, 1);
        if next.Some? {
          StructBehindIs(tables, next.value, depth + 1, owner);
        }
      }
    }
  }

  ghost predicate IsMethodCalled(tables: Tables, row: nat, owner: nat, name: seq<u8>) {
    && row < |tables.functions.name| && StringBytes(tables.strings, tables.functions.name[row]) == name
    && row < |tables.functions.owner| && tables.functions.owner[row] == owner
  }

  ghost predicate IsFirstMethod(tables: Tables, row: nat, owner: nat, name: seq<u8>) {
    && IsMethodCalled(tables, row, owner, name)
    && forall earlier: nat :: earlier < row ==> !IsMethodCalled(tables, earlier, owner, name)
  }

  lemma {:induction false} FirstMethodIs(tables: Tables, owner: StructId, name: seq<u8>, from: nat, row: nat)
    requires FunctionCount(tables.functions) <= 0x1_0000_0000
    requires forall earlier: nat :: earlier < from ==> !IsMethodCalled(tables, earlier, owner, name)
    ensures (FirstMethod(tables, owner, name, from).Some? && FirstMethod(tables, owner, name, from).value == row)
            <==> IsFirstMethod(tables, row, owner, name)
    decreases |tables.functions.name| - from
  {
    if from < |tables.functions.name| && !IsMethodCalled(tables, from, owner, name) {
      FirstMethodIs(tables, owner, name, from + 1, row);
    }
  }

  /** `func` is the method of that name on the struct behind the type of the first child of a call. */
  ghost predicate IsMethodOf(tables: Tables, call: ExpressionId, func: nat) {
    exists receiver: ExpressionId, owner: u32 ::
      && IsFirstChild(tables, call, receiver)
      && receiver < |tables.expressions.result| && tables.expressions.result[receiver] != NO_INDEX
      && IsStructBehind(tables, tables.expressions.result[receiver], 8, owner)
      && IsFirstMethod(tables, func, owner, WrittenOn(tables, call))
  }

  /** Row numbers fit the columns that hold them. */
  predicate Numbered(tables: Tables) {
    StructCount(tables.structs) <= 0x1_0000_0000 && FunctionCount(tables.functions) <= 0x1_0000_0000
  }

  lemma MethodCalledIs(tables: Tables, call: ExpressionId, func: FunctionId)
    requires Numbered(tables)
    ensures MethodCalled(tables, call, WrittenOn(tables, call)) == Some(func) <==> IsMethodOf(tables, call, func)
  {
    var name := WrittenOn(tables, call);
    forall receiver: ExpressionId
      ensures FirstChild(tables, call) == Some(receiver) <==> IsFirstChild(tables, call, receiver)
    {
      FirstChildIs(tables, call, receiver);
    }
    forall kind: TypeId, owner: u32
      ensures StructBehind(tables, kind, 0) == Some(owner) <==> IsStructBehind(tables, kind, 8, owner)
    {
      StructBehindIs(tables, kind, 0, owner);
    }
    forall owner: StructId
      ensures FirstMethod(tables, owner, name, 0) == Some(func) <==> IsFirstMethod(tables, func, owner, name)
    {
      FirstMethodIs(tables, owner, name, 0, func);
    }
  }

  // ---- What a row says ----------------------------------------------------------------------------

  /** The calls that can only run out of memory. */
  predicate IsAllocationCall(name: seq<u8>) {
    || name == Ascii("alloc") || name == Ascii("allocSentinel") || name == Ascii("alignedAlloc")
    || name == Ascii("create") || name == Ascii("dupe") || name == Ascii("dupeZ") || name == Ascii("realloc")
    || name == Ascii("append") || name == Ascii("appendSlice") || name == Ascii("toOwnedSlice")
    || name == Ascii("ensureTotalCapacity") || name == Ascii("ensureUnusedCapacity")
  }

  lemma AllocationCallsAre(name: seq<u8>)
    ensures OnlyAllocates(name) <==> IsAllocationCall(name)
  {
    assert ALLOCATION_FAILURE[0] == "alloc" && ALLOCATION_FAILURE[1] == "allocSentinel";
    assert ALLOCATION_FAILURE[2] == "alignedAlloc" && ALLOCATION_FAILURE[3] == "create";
    assert ALLOCATION_FAILURE[4] == "dupe" && ALLOCATION_FAILURE[5] == "dupeZ" && ALLOCATION_FAILURE[6] == "realloc";
    assert ALLOCATION_FAILURE[7] == "append" && ALLOCATION_FAILURE[8] == "appendSlice";
    assert ALLOCATION_FAILURE[9] == "toOwnedSlice" && ALLOCATION_FAILURE[10] == "ensureTotalCapacity";
    assert ALLOCATION_FAILURE[11] == "ensureUnusedCapacity" && |ALLOCATION_FAILURE| == 12;
  }

  ghost predicate IsCallTo(tables: Tables, expression: ExpressionId, func: FunctionId) {
    && IsOfKind(tables, expression, Call) && func != NO_INDEX
    && expression < |tables.expressions.parameter| && tables.expressions.parameter[expression] == func
  }

  /** What is tried is a call of that function, or a method call that reaches it. */
  ghost predicate Attempts(tables: Tables, tried: ExpressionId, func: FunctionId) {
    IsCallTo(tables, tried, func) || (IsOfKind(tables, tried, Method) && IsMethodOf(tables, tried, func))
  }

  /** What is tried is a method nothing in the program declares, called like one that only allocates. */
  ghost predicate AttemptsToAllocate(tables: Tables, tried: ExpressionId) {
    && IsOfKind(tables, tried, Method) && (forall func: FunctionId :: !IsMethodOf(tables, tried, func))
    && IsAllocationCall(WrittenOn(tables, tried))
  }

  ghost predicate Attributed(tables: Tables, tried: ExpressionId) {
    AttemptsToAllocate(tables, tried) || exists func: FunctionId :: Attempts(tables, tried, func)
  }

  /** The row is a `try`, and `tried` is what it is on. */
  ghost predicate IsTryOn(tables: Tables, expression: ExpressionId, tried: ExpressionId) {
    IsOfKind(tables, expression, Question) && IsFirstChild(tables, expression, tried)
  }

  ghost predicate RowSays(tables: Tables, tries: TryTest, expression: ExpressionId, claim: Claim) {
    match claim
    case Tries(func) =>
      exists tried: ExpressionId :: IsTryOn(tables, expression, tried) && Attempts(tables, tried, func)
    case FailsWith(InSet(id)) =>
      && IsOfKind(tables, expression, Identifier)
      && exists name :: IsMemberOf(WrittenOn(tables, expression), name) && IsFirstErrorSet(tables, id, name)
    case FailsWith(Allocates) =>
      exists tried: ExpressionId :: IsTryOn(tables, expression, tried) && AttemptsToAllocate(tables, tried)
    case FailsWith(Unreadable) =>
      || (IsOfKind(tables, expression, Unsupported) && tries(WrittenOn(tables, expression)))
      || (IsOfKind(tables, expression, Question)
          && forall tried: ExpressionId :: IsTryOn(tables, expression, tried) ==> !Attributed(tables, tried))
  }

  /** What a method call that is tried brings. */
  function MethodReading(tables: Tables, tried: ExpressionId): BodyReading {
    match MethodCalled(tables, tried, WrittenOn(tables, tried))
    case Some(callee) => Reaching(callee)
    case None => if OnlyAllocates(WrittenOn(tables, tried)) then ALLOCATES else UNREADABLE
  }

  /** What a claim needs of the row that is tried. */
  ghost predicate TrySays(tables: Tables, tried: ExpressionId, claim: Claim) {
    match claim
    case Tries(func) => Attempts(tables, tried, func)
    case FailsWith(InSet(_)) => false
    case FailsWith(Allocates) => AttemptsToAllocate(tables, tried)
    case FailsWith(Unreadable) => !Attributed(tables, tried)
  }

  lemma MethodSays(tables: Tables, tried: ExpressionId, claim: Claim)
    requires Numbered(tables) && IsOfKind(tables, tried, Method)
    ensures Says(MethodReading(tables, tried), claim) <==> TrySays(tables, tried, claim)
  {
    AllocationCallsAre(WrittenOn(tables, tried));
    forall func: FunctionId
      ensures MethodCalled(tables, tried, WrittenOn(tables, tried)) == Some(func) <==> IsMethodOf(tables, tried, func)
      ensures Attempts(tables, tried, func) <==> IsMethodOf(tables, tried, func)
    {
      MethodCalledIs(tables, tried, func);
    }
  }

  lemma CallSays(tables: Tables, tried: ExpressionId, claim: Claim)
    requires IsOfKind(tables, tried, Call)
    ensures var callee := OrElse(Get(tables.expressions.parameter, tried), NO_INDEX);
            Says(if callee == NO_INDEX then UNREADABLE else Reaching(callee), claim) <==> TrySays(tables, tried, claim)
  {
    var callee := OrElse(Get(tables.expressions.parameter, tried), NO_INDEX);
    assert callee != NO_INDEX ==> Attempts(tables, tried, callee);
  }

  lemma AttemptedIs(tables: Tables, tried: ExpressionId, expression: ExpressionId)
    requires IsTryOn(tables, expression, tried)
    ensures var callee := OrElse(Get(tables.expressions.parameter, tried), NO_INDEX);
            Attempted(tables, expression)
            == if IsOfKind(tables, tried, Call) then if callee == NO_INDEX then UNREADABLE else Reaching(callee)
               else if IsOfKind(tables, tried, Method) then MethodReading(tables, tried)
               else UNREADABLE
  {
    FirstChildIs(tables, expression, tried);
    assert Wording(tables, tried) == WrittenOn(tables, tried);
  }

  lemma AttemptedSays(tables: Tables, tried: ExpressionId, expression: ExpressionId, claim: Claim)
    requires Numbered(tables) && IsTryOn(tables, expression, tried)
    ensures Says(Attempted(tables, expression), claim) <==> TrySays(tables, tried, claim)
  {
    AttemptedIs(tables, tried, expression);
    if IsOfKind(tables, tried, Call) {
      CallSays(tables, tried, claim);
    } else if IsOfKind(tables, tried, Method) {
      MethodSays(tables, tried, claim);
    }
  }

  lemma NothingTried(tables: Tables, expression: ExpressionId)
    requires IsOfKind(tables, expression, Question) && forall tried :: !IsTryOn(tables, expression, tried)
    ensures Attempted(tables, expression) == UNREADABLE
  {
    if FirstChild(tables, expression).Some? {
      FirstChildIs(tables, expression, FirstChild(tables, expression).value);
      assert IsTryOn(tables, expression, FirstChild(tables, expression).value);
    }
  }

  lemma OneTried(tables: Tables, expression: ExpressionId, one: ExpressionId, other: ExpressionId)
    requires IsTryOn(tables, expression, one) && IsTryOn(tables, expression, other)
    ensures one == other
  {
  }

  lemma QuestionSays(tables: Tables, tries: TryTest, expression: ExpressionId, claim: Claim)
    requires Numbered(tables) && IsOfKind(tables, expression, Question)
    ensures Says(Attempted(tables, expression), claim) <==> RowSays(tables, tries, expression, claim)
  {
    if exists tried :: IsTryOn(tables, expression, tried) {
      var tried :| IsTryOn(tables, expression, tried);
      forall other | IsTryOn(tables, expression, other)
        ensures other == tried
      {
        OneTried(tables, expression, tried, other);
      }
      AttemptedSays(tables, tried, expression, claim);
    } else {
      NothingTried(tables, expression);
    }
  }

  lemma IdentifierSays(tables: Tables, tries: TryTest, expression: ExpressionId, claim: Claim)
    requires Numbered(tables) && IsOfKind(tables, expression, Identifier)
    ensures Says(RowReading(tables, tries, expression), claim) <==> RowSays(tables, tries, expression, claim)
  {
    assert Wording(tables, expression) == WrittenOn(tables, expression);
    if claim.FailsWith? && claim.fact.InSet? {
      ErrorSetNamedIs(tables, WrittenOn(tables, expression), claim.fact.id);
      SetIsSaid(tables, tries, expression, claim.fact.id);
    } else {
      assert !RowSays(tables, tries, expression, claim);
    }
  }

  lemma SetIsSaid(tables: Tables, tries: TryTest, expression: ExpressionId, id: u32)
    requires IsOfKind(tables, expression, Identifier) && Wording(tables, expression) == WrittenOn(tables, expression)
    ensures Says(RowReading(tables, tries, expression), FailsWith(InSet(id)))
            <==> ErrorSetNamed(tables, WrittenOn(tables, expression)) == Some(id)
  {
  }

  /** A row says something exactly when the tables give it that to say. */
  lemma RowReadingMeans(tables: Tables, tries: TryTest, expression: ExpressionId, claim: Claim)
    requires Numbered(tables)
    ensures Says(RowReading(tables, tries, expression), claim) <==> RowSays(tables, tries, expression, claim)
  {
    if IsOfKind(tables, expression, Identifier) {
      IdentifierSays(tables, tries, expression, claim);
    } else if IsOfKind(tables, expression, Question) {
      QuestionSays(tables, tries, expression, claim);
    } else {
      assert Wording(tables, expression) == WrittenOn(tables, expression);
    }
  }

  // ---- What a body says ---------------------------------------------------------------------------

  /** A chain of at most 32 rows leads down from an expression to one that says something. */
  ghost predicate IsSaidBelow(tables: Tables, tries: TryTest, expression: ExpressionId, claim: Claim) {
    exists path :: IsChain(Below(tables), expression, path) && |path| <= 32 && RowSays(tables, tries, End(path), claim)
  }

  /** A body is read as saying exactly what some row near enough says, and as unreadable also if it goes on too long. */
  lemma BodySays(tables: Tables, tries: TryTest, expression: ExpressionId, claim: Claim)
    requires Numbered(tables)
    ensures Says(ReadExpression(tables, tries, expression, 0), claim)
            <==> || IsSaidBelow(tables, tries, expression, claim)
                 || (claim == FailsWith(Unreadable) && HasLongChain(tables, expression))
  {
    ReadingMeans(tables, tries, expression, claim);
    var saying := Saying(Rows(tables, tries), claim);
    forall row: ExpressionId
      ensures saying(row) <==> RowSays(tables, tries, row, claim)
    {
      RowReadingMeans(tables, tries, row, claim);
    }
  }

  // ---- What the function is called for it ---------------------------------------------------------

  /** A function that calls nothing, allocates nothing, and says nothing but that it fails with the one set. */
  ghost predicate FailsOnlyWith(tables: Tables, tries: TryTest, row: nat, id: u32) {
    && row < |tables.functions.body| && tables.functions.body[row] != NO_INDEX
    && IsSaidBelow(tables, tries, tables.functions.body[row], FailsWith(InSet(id)))
    && (forall claim :: IsSaidBelow(tables, tries, tables.functions.body[row], claim) ==>
          claim == FailsWith(InSet(id)) || claim == FailsWith(Unreadable))
    && !Allocating(tables, row) && forall callee: nat :: !HasCall(tables, row, callee)
  }

  lemma SayingOneSet(reading: BodyReading, id: u32)
    requires Says(reading, FailsWith(InSet(id)))
    requires forall claim :: Says(reading, claim) ==> claim == FailsWith(InSet(id)) || claim == FailsWith(Unreadable)
    ensures reading.found.sets == {id} && !reading.found.allocates && reading.reaches == []
  {
    assert forall other :: other in reading.found.sets <==> Says(reading, FailsWith(InSet(other)));
    assert reading.found.allocates == Says(reading, FailsWith(Allocates));
    assert forall func :: func in reading.reaches <==> Says(reading, Tries(func));
    SomethingIn(reading.reaches);
  }

  lemma BodyOfOneSet(tables: Tables, tries: TryTest, row: nat, id: u32)
    requires Numbered(tables) && FailsOnlyWith(tables, tries, row, id)
    ensures var reading := BodyRead(tables, tries, row);
            reading.found.sets == {id} && !reading.found.allocates && reading.reaches == []
  {
    var reading, body := BodyRead(tables, tries, row), tables.functions.body[row];
    forall claim
      ensures Says(reading, claim) <==> || IsSaidBelow(tables, tries, body, claim)
                                        || (claim == FailsWith(Unreadable) && HasLongChain(tables, body))
    {
      BodySays(tables, tries, body, claim);
    }
    SayingOneSet(reading, id);
  }

  lemma ChainGoesOn(program: Program, path: seq<nat>)
    requires WellFormedProgram(program) && Chain(program, path)
    ensures |path| == 1 || path[1] in program.reaches[path[0]]
  {
    assert |path| > 1 ==> path[1] in program.reaches[path[1 - 1]];
  }

  lemma SomethingIn<T>(s: seq<T>)
    ensures s == [] || exists x :: x in s
  {
    assert s != [] ==> s[0] in s;
  }

  /** A function that reaches nothing is left with what it owns. */
  lemma LonelyHolds(program: Program, failures: seq<F.Failure>, row: nat)
    requires WellFormedProgram(program) && SaysAllHeld(program, failures)
    requires row < |failures| && program.reaches[row] == []
    ensures failures[row] == program.own[row]
  {
    var limit := RoundLimit(|program.own|);
    assert SaysHeld(program, limit, row, failures[row]);
    forall fact
      ensures Has(failures[row], fact) <==> Has(program.own[row], fact)
    {
      HeldAtStart(program, row, fact);
      if Has(program.own[row], fact) {
        HeldLonger(program, 0, limit, row, fact);
      }
      if Held(program, limit, row, fact) {
        var path :| Chain(program, path) && path[0] == row && Arrival(path) <= limit
                    && Has(program.own[path[|path| - 1]], fact);
        ChainGoesOn(program, path);
      }
    }
    FactsDetermineFailure(failures[row], program.own[row]);
  }

  lemma OneSetIsOwned(tables: Tables, tries: TryTest, row: nat, id: u32)
    requires Numbered(tables) && FailsOnlyWith(tables, tries, row, id)
    requires row < FunctionCount(tables.functions) && DeclaredSet(tables, row) == None
    ensures ProgramOf(tables, tries).own[row].sets == {id} && !ProgramOf(tables, tries).own[row].allocates
    ensures ProgramOf(tables, tries).reaches[row] == []
  {
    BodyOfOneSet(tables, tries, row, id);
    var reading := BodyRead(tables, tries, row);
    var reaches := ReachesOf(tables, row, reading);
    forall callee: FunctionId
      ensures callee !in reaches
    {
      ReachesAre(tables, row, reading, callee);
    }
    SomethingIn(reaches);
    assert ProgramOf(tables, tries).reaches[row] == reaches;
    assert ProgramOf(tables, tries).own[row] == OwnOf(tables, row, reading);
  }

  /** A fallible function whose Zig declares no set, and that fails with one set alone, is called by that set. */
  lemma NamedByTheSetItNames(
    tables: Tables, tries: TryTest, failures: seq<F.Failure>, named: seq<Option<Failing>>, row: nat, id: u32)
    requires Numbered(tables) && Resolved(tables, tries, failures, named) && row < |named|
    requires row < |tables.functions.flags| && tables.functions.flags[row] % 2 == 1
    requires DeclaredSet(tables, row) == None && FailsOnlyWith(tables, tries, row, id)
    ensures named[row] == if FieldsOf(tables, id).start < FieldsOf(tables, id).end then Some(Declared(id)) else None
  {
    OneSetIsOwned(tables, tries, row, id);
    LonelyHolds(ProgramOf(tables, tries), failures, row);
    var failure := failures[row];
    assert failure.sets == {id} && !failure.allocates && NamedAs(tables, failures, row, named[row]);
    var fields := FieldsOf(tables, id);
    if fields.start < fields.end {
      var name := NameAt(tables, tables.fields.name, fields.start);
      assert NamedBetween(tables, fields.start, fields.end, name) && NamedIn(tables, id, name);
      VariantsAreNames(tables, failure, name);
      assert IsLone(failure);
      assert id in {named[row].value.id};
    } else if VariantsOf(tables, failure) != [] {
      VariantsAreNames(tables, failure, VariantsOf(tables, failure)[0]);
    }
  }
}
