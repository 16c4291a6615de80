/** Reading a body for everything it can fail through. */
module Reading {
  import opened Basics
  import opened Facts
  import opened Expressions
  import opened F = Failure

  /** Whether a text has `try` among its words. Words are Unicode, so the test is handed in. */
  type TryTest = seq<u8> -> bool

  // ---- What one row says ------------------------------------------------------------------------------

  /** The text of a row, read as empty where the handle is the absent one. */
  function Wording(tables: Tables, expression: ExpressionId): seq<u8> {
    if Get(tables.expressions.text, expression) == Some(NO_INDEX) then [] else TextAt(tables, expression)
  }

  predicate ColonsAt(text: seq<u8>, at: nat) {
    at + 2 <= |text| && text[at..at + 2] == Ascii("::")
  }

  /** Where `::` first comes in a text. */
  function FirstColons(text: seq<u8>, from: nat): (r: Option<nat>)
    requires from <= |text|
    ensures r.Some? ==> from <= r.value && ColonsAt(text, r.value)
    ensures forall at: nat :: from <= at && (r.Some? ==> at < r.value) ==> !ColonsAt(text, at)
    decreases |text| - from
  {
    if from + 2 > |text| then None
    else if ColonsAt(text, from) then Some(from)
    else FirstColons(text, from + 1)
  }

  function FirstErrorSet(tables: Tables, name: seq<u8>, row: nat): Option<u32>
    decreases |tables.structs.name| - row
  {
    if row >= |tables.structs.name| then None
    else if Get(tables.structs.kind, row) == Some(ErrorSet) && NameAt(tables, tables.structs.name, row) == name then
      Some(AsU32(row))
    else FirstErrorSet(tables, name, row + 1)
  }

  /** The first error set called by what comes before the first `::` of a text. */
  function ErrorSetNamed(tables: Tables, text: seq<u8>): Option<u32> {
    match FirstColons(text, 0)
    case None => None
    case Some(at) => FirstErrorSet(tables, text[..at], 0)
  }

  function FirstMethod(tables: Tables, owner: StructId, name: seq<u8>, row: nat): Option<FunctionId>
    decreases |tables.functions.name| - row
  {
    if row >= |tables.functions.name| then None
    else if Get(tables.functions.owner, row) == Some(owner) && NameAt(tables, tables.functions.name, row) == name then
      Some(AsU32(row))
    else FirstMethod(tables, owner, name, row + 1)
  }

  function FirstChild(tables: Tables, expression: ExpressionId): Option<ExpressionId> {
    var children := ChildrenOf(tables, expression);
    if children == [] then None else Some(children[0])
  }

  /** A method is looked up by name among those of the struct its first child evaluates to. */
  function MethodCalled(tables: Tables, call: ExpressionId, name: seq<u8>): Option<FunctionId> {
    match FirstChild(tables, call)
    case None => None
    case Some(receiver) =>
      var kind := ResultAt(tables, receiver);
      if kind == NO_INDEX then None
      else
        match StructBehind(tables, kind, 0)
        case None => None
        case Some(owner) => FirstMethod(tables, owner, name, 0)
  }

  /** Called with `try`, these bring `OutOfMemory` and nothing else. */
  const ALLOCATION_FAILURE: seq<string> := [
    "alloc", "allocSentinel", "alignedAlloc", "create", "dupe", "dupeZ", "realloc", "append", "appendSlice",
    "toOwnedSlice", "ensureTotalCapacity", "ensureUnusedCapacity"]

  predicate OnlyAllocates(name: seq<u8>) {
    exists i :: 0 <= i < |ALLOCATION_FAILURE| && Ascii(ALLOCATION_FAILURE[i]) == name
  }

  const NOTHING_READ := BodyReading(NOTHING, [])
  const UNREADABLE := BodyReading(F.Failure({}, false, true), [])
  const ALLOCATES := BodyReading(F.Failure({}, true, false), [])

  function Reaching(func: FunctionId): BodyReading { BodyReading(NOTHING, [func]) }

  /** What a `try` lets through, by what it is tried on. */
  function Attempted(tables: Tables, expression: ExpressionId): BodyReading {
    match FirstChild(tables, expression)
    case None => UNREADABLE
    case Some(child) =>
      if KindAt(tables, child) == Some(Call) then
        var callee := OrElse(Get(tables.expressions.parameter, child), NO_INDEX);
        if callee == NO_INDEX then UNREADABLE else Reaching(callee)
      else if KindAt(tables, child) == Some(Method) then
        var name := Wording(tables, child);
        match MethodCalled(tables, child, name)
        case Some(callee) => Reaching(callee)
        case None => if OnlyAllocates(name) then ALLOCATES else UNREADABLE
      else UNREADABLE
  }

  function RowReading(tables: Tables, tries: TryTest, expression: ExpressionId): BodyReading {
    match KindAt(tables, expression)
    case Some(Identifier) =>
      (match ErrorSetNamed(tables, Wording(tables, expression))
       case Some(id) => BodyReading(F.Failure({id}, false, false), [])
       case None => NOTHING_READ)
    case Some(Unsupported) => if tries(Wording(tables, expression)) then UNREADABLE else NOTHING_READ
    case Some(Question) => Attempted(tables, expression)
    case _ => NOTHING_READ
  }

  // ---- What a whole body says ---------------------------------------------------------------------------

  function Both(first: BodyReading, second: BodyReading): BodyReading {
    BodyReading(Absorb(first.found, second.found), first.reaches + second.reaches)
  }

  lemma BothRegroups(a: BodyReading, b: BodyReading, c: BodyReading)
    ensures Both(Both(a, b), c) == Both(a, Both(b, c))
  {
  }

  lemma NothingReadAdds(reading: BodyReading)
    ensures Both(reading, NOTHING_READ) == reading
  {
  }

  lemma AddedToNothing(reading: BodyReading)
    ensures Both(NOTHING_READ, reading) == reading
  {
  }

  /** The rows read below a row; nothing below a row that does not exist is read. */
  function Below(tables: Tables): Links {
    (expression: ExpressionId) =>
      if KindAt(tables, expression).None? then [] else ChildrenOf(tables, expression)
  }

  /** A tree read top down, with `row` saying what each row says. */
  function ReadAt(below: Links, row: ExpressionId -> BodyReading, expression: ExpressionId, depth: nat): BodyReading
    decreases MAXIMUM_DEPTH - depth, 0
  {
    if depth >= MAXIMUM_DEPTH then UNREADABLE
    else Both(row(expression), ReadAll(below, row, below(expression), depth + 1))
  }

  function ReadAll(
    below: Links, row: ExpressionId -> BodyReading, expressions: seq<ExpressionId>, depth: nat): BodyReading
    decreases MAXIMUM_DEPTH - depth, |expressions| + 1
  {
    if expressions == [] then NOTHING_READ
    else
      var last := |expressions| - 1;
      Both(ReadAll(below, row, expressions[..last], depth), ReadAt(below, row, expressions[last], depth))
  }

  function Rows(tables: Tables, tries: TryTest): ExpressionId -> BodyReading {
    (expression: ExpressionId) => RowReading(tables, tries, expression)
  }

  function ReadExpression(tables: Tables, tries: TryTest, expression: ExpressionId, depth: nat): BodyReading {
    ReadAt(Below(tables), Rows(tables, tries), expression, depth)
  }

  /** One thing a reading can say. */
  datatype Claim = FailsWith(fact: Fact) | Tries(func: FunctionId)

  predicate Says(reading: BodyReading, claim: Claim) {
    match claim
    case FailsWith(fact) => Has(reading.found, fact)
    case Tries(func) => func in reading.reaches
  }

  function Saying(row: ExpressionId -> BodyReading, claim: Claim): Test {
    (expression: ExpressionId) => Says(row(expression), claim)
  }

  lemma BothSay(first: BodyReading, second: BodyReading, claim: Claim)
    ensures Says(Both(first, second), claim) <==> Says(first, claim) || Says(second, claim)
  {
  }

  lemma {:induction false} AllSay(
    below: Links, row: ExpressionId -> BodyReading, expressions: seq<ExpressionId>, depth: nat, claim: Claim)
    ensures Says(ReadAll(below, row, expressions, depth), claim)
            <==> exists e :: e in expressions && Says(ReadAt(below, row, e, depth), claim)
    decreases |expressions|
  {
    if expressions != [] {
      var last := |expressions| - 1;
      AllSay(below, row, expressions[..last], depth, claim);
      BothSay(ReadAll(below, row, expressions[..last], depth), ReadAt(below, row, expressions[last], depth), claim);
      assert expressions[last] in expressions;
      assert forall e :: e in expressions <==> e in expressions[..last] || e == expressions[last];
    }
  }

  function Anything(): Test { (expression: ExpressionId) => true }

  /** Some chain down from an expression is too long to be read to its end. */
  predicate TooDeep(below: Links, expression: ExpressionId, depth: nat) {
    !Everywhere(below, Anything(), expression, depth)
  }

  lemma ReadingStep(
    below: Links, row: ExpressionId -> BodyReading, expression: ExpressionId, depth: nat, claim: Claim)
    requires depth < MAXIMUM_DEPTH
    ensures Says(ReadAt(below, row, expression, depth), claim)
            <==> Says(row(expression), claim)
                 || exists child :: child in below(expression) && Says(ReadAt(below, row, child, depth + 1), claim)
  {
    BothSay(row(expression), ReadAll(below, row, below(expression), depth + 1), claim);
    AllSay(below, row, below(expression), depth + 1, claim);
  }

  /** A reading says what some row within the depth limit says, or that the tree is too deep to read. */
  lemma {:induction false} ReadingIsSomewhere(
    below: Links, row: ExpressionId -> BodyReading, expression: ExpressionId, depth: nat, claim: Claim)
    ensures Says(ReadAt(below, row, expression, depth), claim)
            <==> Somewhere(below, Saying(row, claim), expression, depth)
                 || (claim == FailsWith(Unreadable) && TooDeep(below, expression, depth))
    decreases MAXIMUM_DEPTH - depth
  {
    if depth < MAXIMUM_DEPTH {
      ReadingStep(below, row, expression, depth, claim);
      forall child | child in below(expression)
        ensures Says(ReadAt(below, row, child, depth + 1), claim)
                <==> Somewhere(below, Saying(row, claim), child, depth + 1)
                     || (claim == FailsWith(Unreadable) && TooDeep(below, child, depth + 1))
      {
        ReadingIsSomewhere(below, row, child, depth + 1, claim);
      }
    }
  }

  /** A chain of rows longer than the reading goes. */
  ghost predicate HasLongChain(tables: Tables, expression: ExpressionId) {
    exists path :: IsChain(Below(tables), expression, path) && |path| > MAXIMUM_DEPTH
  }

  /**
   * A body is read as failing with something, or as letting a function's failures through, exactly when a chain of
   * rows within the depth limit leads to one that says so; and as unreadable also when some chain is longer than that.
   */
  lemma ReadingMeans(tables: Tables, tries: TryTest, expression: ExpressionId, claim: Claim)
    ensures Says(ReadExpression(tables, tries, expression, 0), claim)
            <==> SomeChain(Below(tables), Saying(Rows(tables, tries), claim), expression, 0)
                 || (claim == FailsWith(Unreadable) && HasLongChain(tables, expression))
  {
    ReadingIsSomewhere(Below(tables), Rows(tables, tries), expression, 0, claim);
    SomewhereIsSomeChain(Below(tables), Saying(Rows(tables, tries), claim), expression, 0);
    EverywhereIsEveryChain(Below(tables), Anything(), expression, 0);
  }

  // ---- Reading ------------------------------------------------------------------------------------------

  lemma ReadAllNext(
    below: Links, row: ExpressionId -> BodyReading, expressions: seq<ExpressionId>, depth: nat, i: nat)
    requires i < |expressions|
    ensures ReadAll(below, row, expressions[..i + 1], depth)
         == Both(ReadAll(below, row, expressions[..i], depth), ReadAt(below, row, expressions[i], depth))
  {
    assert expressions[..i + 1][..i] == expressions[..i];
  }

  lemma AbsentSaysNothing(tables: Tables, tries: TryTest, expression: ExpressionId, depth: nat)
    requires depth < MAXIMUM_DEPTH && KindAt(tables, expression).None?
    ensures ReadExpression(tables, tries, expression, depth) == NOTHING_READ
  {
    var below, rows := Below(tables), Rows(tables, tries);
    assert rows(expression) == NOTHING_READ && below(expression) == [];
    assert ReadAll(below, rows, below(expression), depth + 1) == NOTHING_READ;
    NothingReadAdds(NOTHING_READ);
  }

  /** Adds what an expression says to what has been found so far. */
  method ReadFailures(tables: Tables, tries: TryTest, expression: ExpressionId, depth: nat, so: BodyReading)
    returns (reading: BodyReading)
    ensures reading == Both(so, ReadExpression(tables, tries, expression, depth))
    decreases MAXIMUM_DEPTH - depth
  {
    if depth >= MAXIMUM_DEPTH {
      return Both(so, UNREADABLE);
    }
    ghost var below, rows := Below(tables), Rows(tables, tries);
    if KindAt(tables, expression).None? {
      AbsentSaysNothing(tables, tries, expression, depth);
      NothingReadAdds(so);
      return so;
    }
    var own := RowReading(tables, tries, expression);
    reading := Both(so, own);
    var children := ChildrenOf(tables, expression);
    NothingReadAdds(reading);
    for i := 0 to |children|
      invariant reading == Both(Both(so, own), ReadAll(below, rows, children[..i], depth + 1))
    {
      ReadAllNext(below, rows, children, depth + 1, i);
      BothRegroups(Both(so, own), ReadAll(below, rows, children[..i], depth + 1),
                   ReadAt(below, rows, children[i], depth + 1));
      reading := ReadFailures(tables, tries, children[i], depth + 1, reading);
    }
    assert children[..|children|] == children;
    BothRegroups(so, own, ReadAll(below, rows, children, depth + 1));
  }

  /** What the body of one function says, nothing where it has none. */
  function BodyRead(tables: Tables, tries: TryTest, row: nat): BodyReading {
    var body := OrElse(Get(tables.functions.body, row), NO_INDEX);
    if body == NO_INDEX then NOTHING_READ else ReadExpression(tables, tries, body, 0)
  }

  method ReadBodies(tables: Tables, tries: TryTest) returns (readings: seq<BodyReading>)
    ensures |readings| == FunctionCount(tables.functions)
    ensures forall row :: 0 <= row < |readings| ==> readings[row] == BodyRead(tables, tries, row)
  {
    readings := [];
    for row := 0 to FunctionCount(tables.functions)
      invariant |readings| == row
      invariant forall r :: 0 <= r < row ==> readings[r] == BodyRead(tables, tries, r)
    {
      var body := OrElse(Get(tables.functions.body, row), NO_INDEX);
      var reading := NOTHING_READ;
      if body != NO_INDEX {
        reading := ReadFailures(tables, tries, body, 0, NOTHING_READ);
        AddedToNothing(ReadExpression(tables, tries, body, 0));
      }
      readings := readings + [reading];
    }
  }
}
