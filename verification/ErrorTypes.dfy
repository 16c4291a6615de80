/** Which type a generated name is, and which variants that type is declared with. */
module ErrorTypes {
  import opened Basics
  import opened Facts
  import opened F = Failure
  import opened Naming
  import opened Reading
  import opened Validate

  // ---- Which type a generated name is -------------------------------------------------------------

  /** Generated types are told apart by module and name: a module declares one type per name. */
  predicate IsSameType(one: Failing, other: Failing) {
    && one.Generated? && other.Generated?
    && one.module_ == other.module_ && one.name == other.name
  }

  /** What a generated type is called after: the struct and the function it was first needed for, folded. */
  function FoldedName(tables: Tables, row: nat): seq<u8> {
    PascalCase(OwnerName(tables, row)) + PascalCase(NameAt(tables, tables.functions.name, row))
  }

  predicate IsNamedAlike(tables: Tables, one: nat, other: nat) {
    FunctionModule(tables, one) == FunctionModule(tables, other) && FoldedName(tables, one) == FoldedName(tables, other)
  }

  lemma SameTypeIsNamedAlike(tables: Tables, one: nat, other: nat, mine: seq<seq<u8>>, theirs: seq<seq<u8>>)
    ensures IsSameType(Minting(tables, one, mine), Minting(tables, other, theirs)) <==> IsNamedAlike(tables, one, other)
  {
    SameEnding(FoldedName(tables, one), FoldedName(tables, other), Ascii("Error"));
  }

  lemma SameEnding(first: seq<u8>, second: seq<u8>, ending: seq<u8>)
    ensures first + ending == second + ending <==> first == second
  {
    if first + ending == second + ending {
      assert first == (first + ending)[..|first|] && second == (second + ending)[..|second|];
      assert |first| == |second|;
    }
  }

  /** No two functions first to need different variants are named alike. */
  ghost predicate FirstsAreNamedApart(tables: Tables, failures: seq<Failure>) {
    forall one: nat, other: nat ::
      one < other && IsFirstOfItsOwn(tables, failures, one) && IsFirstOfItsOwn(tables, failures, other) ==>
        !IsNamedAlike(tables, one, other)
  }

  ghost predicate IsFirstOfItsOwn(tables: Tables, failures: seq<Failure>, row: nat) {
    row < |failures| && IsFirst(tables, failures, row, VariantsOf(tables, failures[row]))
  }

  /** Functions given one type list the same variants. */
  ghost predicate TypesTellVariantsApart(named: seq<Option<Failing>>) {
    forall a, b :: 0 <= a < |named| && 0 <= b < |named| && named[a].Some? && named[b].Some?
                   && IsSameType(named[a].value, named[b].value) ==>
      named[a].value.variants == named[b].value.variants
  }

  ghost predicate AllNamed(tables: Tables, failures: seq<Failure>, named: seq<Option<Failing>>) {
    |named| == |failures| && forall row :: 0 <= row < |named| ==> NamedAs(tables, failures, row, named[row])
  }

  /** A generated name was minted for the first function that lists the same variants. */
  lemma GeneratedComesFromAFirst(tables: Tables, failures: seq<Failure>, row: nat, named: Option<Failing>)
    returns (first: nat)
    requires row < |failures| && NamedAs(tables, failures, row, named) && named.Some? && named.value.Generated?
    ensures first <= row && IsFirstOfItsOwn(tables, failures, first)
    ensures VariantsOf(tables, failures[first]) == VariantsOf(tables, failures[row])
    ensures named.value == Minting(tables, first, VariantsOf(tables, failures[row]))
  {
    var variants := VariantsOf(tables, failures[row]);
    first :| first <= row && IsFirst(tables, failures, first, variants) &&
      named == Some(Minting(tables, first, variants));
  }

  lemma FirstNamesItself(tables: Tables, failures: seq<Failure>, row: nat, named: Option<Failing>)
    requires IsFirstOfItsOwn(tables, failures, row) && NamedAs(tables, failures, row, named)
    ensures named == Some(Minting(tables, row, VariantsOf(tables, failures[row])))
  {
    var variants := VariantsOf(tables, failures[row]);
    var first: nat :| first <= row && IsFirst(tables, failures, first, variants)
                      && named == Some(Minting(tables, first, variants));
    FirstIsUnique(tables, failures, first, row, variants);
  }

  /**
   * A generated type stands for one list of variants exactly when no two functions that are first to need different
   * lists share a module and a folded name.
   */
  lemma TypesTellVariantsApartExactlyWhen(tables: Tables, failures: seq<Failure>, named: seq<Option<Failing>>)
    requires AllNamed(tables, failures, named)
    ensures TypesTellVariantsApart(named) <==> FirstsAreNamedApart(tables, failures)
  {
    if FirstsAreNamedApart(tables, failures) {
      forall a, b | 0 <= a < |named| && 0 <= b < |named| && named[a].Some? && named[b].Some?
                    && IsSameType(named[a].value, named[b].value)
        ensures named[a].value.variants == named[b].value.variants
      {
        OneTypeOneFirst(tables, failures, a, b, named[a], named[b]);
      }
    }
    if TypesTellVariantsApart(named) {
      forall one: nat, other: nat |
        one < other && IsFirstOfItsOwn(tables, failures, one) && IsFirstOfItsOwn(tables, failures, other)
        ensures !IsNamedAlike(tables, one, other)
      {
        FirstNamesItself(tables, failures, one, named[one]);
        FirstNamesItself(tables, failures, other, named[other]);
        FirstsDiffer(tables, failures, one, other);
        SameTypeIsNamedAlike(
          tables, one, other, VariantsOf(tables, failures[one]), VariantsOf(tables, failures[other]));
      }
    }
  }

  lemma FirstsDiffer(tables: Tables, failures: seq<Failure>, one: nat, other: nat)
    requires one < other && IsFirstOfItsOwn(tables, failures, one) && IsFirstOfItsOwn(tables, failures, other)
    ensures VariantsOf(tables, failures[one]) != VariantsOf(tables, failures[other])
  {
    assert Mints(tables, failures, one);
  }

  lemma OneTypeOneFirst(
    tables: Tables, failures: seq<Failure>, a: nat, b: nat, mine: Option<Failing>, theirs: Option<Failing>)
    requires a < |failures| && b < |failures| && FirstsAreNamedApart(tables, failures)
    requires NamedAs(tables, failures, a, mine) && NamedAs(tables, failures, b, theirs)
    requires mine.Some? && theirs.Some? && IsSameType(mine.value, theirs.value)
    ensures mine.value.variants == theirs.value.variants
  {
    var one := GeneratedComesFromAFirst(tables, failures, a, mine);
    var other := GeneratedComesFromAFirst(tables, failures, b, theirs);
    SameTypeIsNamedAlike(tables, one, other, mine.value.variants, theirs.value.variants);
    assert one < other || other < one || one == other;
    assert IsNamedAlike(tables, other, one);
  }

  /** No two fallible functions with no declared set are named alike: a check on the function names alone. */
  predicate NamesStayApart(tables: Tables) {
    forall one: nat, other: nat ::
      one < other < |tables.functions.flags| && Wanted(tables, one) && Wanted(tables, other) ==>
        !IsNamedAlike(tables, one, other)
  }

  lemma NamesApartTellVariantsApart(tables: Tables, failures: seq<Failure>, named: seq<Option<Failing>>)
    requires AllNamed(tables, failures, named) && NamesStayApart(tables)
    ensures TypesTellVariantsApart(named)
  {
    TypesTellVariantsApartExactlyWhen(tables, failures, named);
  }

  // ---- Declaring the generated types --------------------------------------------------------------

  predicate HasName(declared: seq<Failing>, name: seq<u8>)
    requires forall i :: 0 <= i < |declared| ==> declared[i].Generated?
  {
    exists i :: 0 <= i < |declared| && declared[i].name == name
  }

  /** The types a module declares for the first `bound` functions: the first to come of each name. */
  function Declarations(named: seq<Option<Failing>>, module_: ModuleId, bound: nat): (r: seq<Failing>)
    requires bound <= |named|
    ensures forall i :: 0 <= i < |r| ==> r[i].Generated? && r[i].module_ == module_
  {
    if bound == 0 then []
    else
      var earlier, failing := Declarations(named, module_, bound - 1), named[bound - 1];
      if failing.Some? && failing.value.Generated? && failing.value.module_ == module_
         && !HasName(earlier, failing.value.name) then earlier + [failing.value]
      else earlier
  }

  method DeclareGenerated(named: seq<Option<Failing>>, module_: ModuleId) returns (declared: seq<Failing>)
    ensures declared == Declarations(named, module_, |named|)
  {
    declared := [];
    for row := 0 to |named|
      invariant declared == Declarations(named, module_, row)
    {
      var failing := named[row];
      if failing.Some? && failing.value.Generated? {
        if failing.value.module_ == module_ && !HasName(declared, failing.value.name) {
          declared := declared + [failing.value];
        }
      }
    }
  }

  ghost predicate DeclaresOnce(declared: seq<Failing>)
    requires forall i :: 0 <= i < |declared| ==> declared[i].Generated?
  {
    forall i, j :: 0 <= i < j < |declared| ==> declared[i].name != declared[j].name
  }

  /** A module declares no name twice, every declaration is some function's, and every function's name is declared. */
  lemma {:induction false} DeclarationsAre(named: seq<Option<Failing>>, module_: ModuleId, bound: nat)
    requires bound <= |named|
    ensures DeclaresOnce(Declarations(named, module_, bound))
    ensures forall failing :: failing in Declarations(named, module_, bound) ==> Some(failing) in named
    ensures forall row :: 0 <= row < bound && named[row].Some? && named[row].value.Generated?
                          && named[row].value.module_ == module_ ==>
              HasName(Declarations(named, module_, bound), named[row].value.name)
  {
    if bound > 0 {
      DeclarationsAre(named, module_, bound - 1);
      var earlier, now := Declarations(named, module_, bound - 1), Declarations(named, module_, bound);
      forall name | HasName(earlier, name)
        ensures HasName(now, name)
      {
        var i :| 0 <= i < |earlier| && earlier[i].name == name;
        assert now[i].name == name;
      }
      if |now| > |earlier| {
        assert now[|earlier|] == named[bound - 1].value;
      }
    }
  }

  /** The type declared under a function's generated name lists the function's variants. */
  ghost predicate IsDeclaredAsListed(named: seq<Option<Failing>>, row: nat)
    requires row < |named| && named[row].Some? && named[row].value.Generated?
  {
    named[row].value in Declarations(named, named[row].value.module_, |named|)
  }

  ghost predicate AllDeclaredAsListed(named: seq<Option<Failing>>) {
    forall row :: 0 <= row < |named| && named[row].Some? && named[row].value.Generated? ==>
      IsDeclaredAsListed(named, row)
  }

  lemma DeclaredUnderName(named: seq<Option<Failing>>, row: nat) returns (declared: Failing)
    requires row < |named| && named[row].Some? && named[row].value.Generated?
    ensures declared in Declarations(named, named[row].value.module_, |named|)
    ensures Some(declared) in named && IsSameType(declared, named[row].value)
  {
    var module_ := named[row].value.module_;
    DeclarationsAre(named, module_, |named|);
    var declarations := Declarations(named, module_, |named|);
    var i :| 0 <= i < |declarations| && declarations[i].name == named[row].value.name;
    declared := declarations[i];
  }

  /** Every function's type is declared with the variants it lists exactly when types tell variant lists apart. */
  lemma DeclaredAsListedExactlyWhen(named: seq<Option<Failing>>)
    ensures AllDeclaredAsListed(named) <==> TypesTellVariantsApart(named)
  {
    if TypesTellVariantsApart(named) {
      forall row | 0 <= row < |named| && named[row].Some? && named[row].value.Generated?
        ensures IsDeclaredAsListed(named, row)
      {
        var declared := DeclaredUnderName(named, row);
        var other :| 0 <= other < |named| && named[other] == Some(declared);
        assert IsSameType(named[other].value, named[row].value);
      }
    }
    if AllDeclaredAsListed(named) {
      forall a, b | 0 <= a < |named| && 0 <= b < |named| && named[a].Some? && named[b].Some?
                    && IsSameType(named[a].value, named[b].value)
        ensures named[a].value.variants == named[b].value.variants
      {
        var module_ := named[a].value.module_;
        assert IsDeclaredAsListed(named, a) && IsDeclaredAsListed(named, b);
        DeclarationsAre(named, module_, |named|);
        OneDeclarationPerName(Declarations(named, module_, |named|), named[a].value, named[b].value);
      }
    }
  }

  lemma OneDeclarationPerName(declared: seq<Failing>, one: Failing, other: Failing)
    requires forall i :: 0 <= i < |declared| ==> declared[i].Generated?
    requires DeclaresOnce(declared) && one in declared && other.Generated? && one.name == other.name
    ensures other in declared ==> one == other
  {
    var i :| 0 <= i < |declared| && declared[i] == one;
    if other in declared {
      var j :| 0 <= j < |declared| && declared[j] == other;
      assert i < j || j < i || i == j;
    }
  }

  /**
   * Where the rounds have settled and no two of the functions to be named are named alike, the type declared for a
   * function that is given a generated name has every variant of whatever the function lets through.
   */
  lemma DeclaredTypesCoverWhatIsLetThrough(
    tables: Tables, tries: TryTest, failures: seq<Failure>, named: seq<Option<Failing>>, row: nat, callee: FunctionId,
    name: seq<u8>)
    requires Resolved(tables, tries, failures, named) && NamesStayApart(tables)
    requires Settled(ProgramOf(tables, tries), RoundLimit(|failures|))
    requires row < |named| && callee < |named| && LetsThrough(tables, tries, row, callee) && Wanted(tables, row)
    requires var error := ErrorOf(tables, named, callee);
             error.Some? && name in ListedBy(tables, error.value)
    requires named[row].Some? && named[row].value.Generated?
    ensures exists declared ::
              && declared in Declarations(named, named[row].value.module_, |named|)
              && IsSameType(declared, named[row].value) && name in declared.variants
  {
    NamesCoverWhatIsLetThrough(tables, tries, failures, named, row, callee, name);
    NamesApartTellVariantsApart(tables, failures, named);
    DeclaredAsListedExactlyWhen(named);
    assert IsDeclaredAsListed(named, row);
  }

  // ---- Two functions named alike ------------------------------------------------------------------

  /** `a_b` and `aB` both allocate, and `aB` calls a function with a declared set. */
  function NamedAlikeTables(): Tables {
    OneErrorSet().(
      strings := Strings(Ascii("ea_baB"), [0, 1, 4, 6]),
      functions := Functions(
        [1, 2, 0], [ROOT_MODULE, ROOT_MODULE, ROOT_MODULE], [NO_INDEX, NO_INDEX, NO_INDEX], [0, 0, 0], [0, 0, 0],
        [NO_INDEX, NO_INDEX, NO_INDEX], [NO_INDEX, NO_INDEX, 0],
        [FUNCTION_FLAG_FALLIBLE, FUNCTION_FLAG_FALLIBLE, FUNCTION_FLAG_FALLIBLE], [0, 0, 0],
        [NO_INDEX, NO_INDEX, NO_INDEX]),
      calls := Calls([1], [2]),
      memoryOperations := MemoryOperations(
        [0, 1], [Allocate, Allocate], [NO_INDEX, NO_INDEX], [Local, Local], [NO_INDEX, NO_INDEX]))
  }

  const ALLOCATING := F.Failure({}, true, false)
  const DECLARING := F.Failure({0}, false, false)
  const DOING_BOTH := F.Failure({0}, true, false)

  function NamedAlikeProgram(): (program: Program)
    ensures WellFormedProgram(program)
  {
    Program([ALLOCATING, ALLOCATING, DECLARING], [[], [2], []])
  }

  lemma NamedAlikeStrings()
    ensures Sound(NamedAlikeTables().strings) && StringCount(NamedAlikeTables().strings) == 3
  {
    assert |NamedAlikeTables().strings.bytes| == 6;
  }

  lemma NamedAlikeTypeHandles()
    ensures TypeHandlesHold(NamedAlikeTables())
  {
    NamedAlikeStrings();
  }

  lemma NamedAlikeDeclarationHandles()
    ensures DeclarationHandlesHold(NamedAlikeTables())
  {
    NamedAlikeStrings();
  }

  lemma NamedAlikeFlowHandles()
    ensures FlowHandlesHold(NamedAlikeTables()) && PlacesHold(NamedAlikeTables())
    ensures ParameterIndicesHold(NamedAlikeTables()) && CallsComeByCaller(NamedAlikeTables().calls)
  {
  }

  lemma NamedAlikeLengths()
    ensures LengthsMatch(NamedAlikeTables())
  {
  }

  lemma NamedAlikeRangesHold()
    ensures var tables := NamedAlikeTables();
            FieldRangesHold(tables) && ParameterRangesHold(tables) && ModuleRangesHold(tables)
  {
    var tables := NamedAlikeTables();
    assert EndsAtNext(tables.structs.fieldStart, tables.structs.fieldCount, 1, 0);
    assert EndsAtNext(tables.modules.unresolvedStart, tables.modules.unresolvedCount, 0, 0);
  }

  lemma NamedAlikePasses()
    ensures Passes(NamedAlikeTables())
  {
    NamedAlikeLengths();
    NamedAlikeStrings();
    NamedAlikeTypeHandles();
    NamedAlikeDeclarationHandles();
    NamedAlikeFlowHandles();
    NamedAlikeRangesHold();
  }

  lemma NamedAlikeBody(tries: TryTest, row: nat)
    requires row < 3
    ensures BodyRead(NamedAlikeTables(), tries, row) == NOTHING_READ
  {
  }

  lemma NamedAlikeIsRead(tries: TryTest)
    ensures ProgramOf(NamedAlikeTables(), tries) == NamedAlikeProgram()
  {
    var program, expected := ProgramOf(NamedAlikeTables(), tries), NamedAlikeProgram();
    assert |program.own| == 3;
    forall row: nat | row < 3
      ensures program.own[row] == expected.own[row] && program.reaches[row] == expected.reaches[row]
    {
      NamedAlikeRowIsRead(tries, row);
    }
    assert program.own == expected.own && program.reaches == expected.reaches;
  }

  lemma NamedAlikeRowIsRead(tries: TryTest, row: nat)
    requires row < 3
    ensures var program := ProgramOf(NamedAlikeTables(), tries);
            && |program.own| == 3
            && program.own[row] == NamedAlikeProgram().own[row]
            && program.reaches[row] == NamedAlikeProgram().reaches[row]
  {
    NamedAlikeBody(tries, row);
    NamedAlikeOwn(row);
    NamedAlikeCalls(row);
  }

  lemma NamedAlikeAllocates(row: nat)
    ensures Allocating(NamedAlikeTables(), row) <==> row < 2
  {
    var tables := NamedAlikeTables();
    if row < 2 {
      assert AllocatesAt(tables, row, row);
    }
  }

  lemma NamedAlikeCalls(row: nat)
    ensures ReachesOf(NamedAlikeTables(), row, NOTHING_READ) == if row == 1 then [2] else []
  {
    var tables := NamedAlikeTables();
    assert CallCount(tables.calls) == 1;
    assert WithCallees(tables, row, [], 0) == [];
  }

  lemma NamedAlikeDeclares(row: nat)
    requires row < 3
    ensures DeclaredSet(NamedAlikeTables(), row) == if row == 2 then Some(0) else None
  {
  }

  lemma NamedAlikeOwn(row: nat)
    requires row < 3
    ensures OwnOf(NamedAlikeTables(), row, NOTHING_READ) == if row == 2 then DECLARING else ALLOCATING
  {
    NamedAlikeAllocates(row);
    NamedAlikeDeclares(row);
    assert NOTHING_READ.found.sets + {} == {} && NOTHING_READ.found.sets + {0} == {0};
  }

  lemma {:induction false} NamedAlikeChain(path: seq<nat>)
    requires Chain(NamedAlikeProgram(), path)
    ensures |path| == 1 || (|path| == 2 && path[0] == 1 && path[1] == 2)
    decreases |path|
  {
    if |path| > 1 {
      assert path[1] in NamedAlikeProgram().reaches[path[0]];
      ChainTail(NamedAlikeProgram(), path);
      NamedAlikeChain(path[1..]);
    }
  }

  lemma NamedAlikeReaches(row: nat, fact: Fact)
    requires row < 2
    ensures Reached(NamedAlikeProgram(), row, fact) <==> Has(if row == 0 then ALLOCATING else DOING_BOTH, fact)
  {
    var program := NamedAlikeProgram();
    if Reached(program, row, fact) {
      var path :| Chain(program, path) && path[0] == row && Has(program.own[path[|path| - 1]], fact);
      NamedAlikeChain(path);
    }
    assert Chain(program, [row]) && [row][|[row]| - 1] == row;
    if row == 1 {
      var path: seq<nat> := [1, 2];
      assert Chain(program, path) && path[|path| - 1] == 2;
    }
  }

  lemma NamedAlikeResult(failures: seq<Failure>, row: nat)
    requires row < 2 && SaysAllHeld(NamedAlikeProgram(), failures)
    ensures failures[row] == if row == 0 then ALLOCATING else DOING_BOTH
  {
    var program, expected := NamedAlikeProgram(), if row == 0 then ALLOCATING else DOING_BOTH;
    assert SaysHeld(program, RoundLimit(3), row, failures[row]);
    SmallProgramsAreExact(program);
    forall fact
      ensures Has(failures[row], fact) <==> Has(expected, fact)
    {
      NamedAlikeReaches(row, fact);
      HeldBetweenHopsAndReach(program, RoundLimit(3), row, [], fact);
    }
    FactsDetermineFailure(failures[row], expected);
  }

  /** Only the second lists the member of the set, and both list running out of memory. */
  lemma NamedAlikeVariants(name: seq<u8>)
    ensures var tables := NamedAlikeTables();
            && (name in VariantsOf(tables, ALLOCATING) <==> name == OutOfMemory())
            && (name in VariantsOf(tables, DOING_BOTH) <==> name == OutOfMemory() || name == Ascii("e"))
  {
    var tables := NamedAlikeTables();
    VariantsAreNames(tables, ALLOCATING, name);
    VariantsAreNames(tables, DOING_BOTH, name);
    assert NameAt(tables, tables.fields.name, 0) == Ascii("e");
    assert FieldsOf(tables, 0) == Range(0, 1);
    assert NamedIn(tables, 0, name) <==> name == Ascii("e");
    assert 0 in DOING_BOTH.sets;
  }

  lemma FoldingAlike()
    ensures PascalCase([97, 95, 98]) == [65, 66] && PascalCase([97, 66]) == [65, 66] && PascalCase([]) == []
  {
    assert [97, 95, 98][1..] == [95, 98] && [95, 98][1..] == [98] && [98][1..] == [];
    assert [97, 66][1..] == [66] && [66][1..] == [];
    assert PascalFrom([98], true) == [66] && PascalFrom([95, 98], false) == [66];
    assert PascalFrom([66], false) == [66];
  }

  lemma NamedAlikeFunctionNames()
    ensures var tables := NamedAlikeTables();
            && NameAt(tables, tables.functions.name, 0) == [97, 95, 98]
            && NameAt(tables, tables.functions.name, 1) == [97, 66]
            && OwnerName(tables, 0) == [] && OwnerName(tables, 1) == []
  {
  }

  lemma NamesFoldAlike()
    ensures FoldedName(NamedAlikeTables(), 0) == FoldedName(NamedAlikeTables(), 1) == Ascii("AB")
    ensures IsNamedAlike(NamedAlikeTables(), 0, 1)
  {
    NamedAlikeFunctionNames();
    FoldingAlike();
    assert Ascii("AB") == [65, 66] && [] + Ascii("AB") == Ascii("AB");
  }

  lemma NamedAlikeListsDiffer()
    ensures var tables := NamedAlikeTables();
            && VariantsOf(tables, ALLOCATING) != [] && VariantsOf(tables, DOING_BOTH) != []
            && VariantsOf(tables, ALLOCATING) != VariantsOf(tables, DOING_BOTH)
  {
    NamedAlikeVariants(Ascii("e"));
    NamedAlikeVariants(OutOfMemory());
    assert |Ascii("e")| != |OutOfMemory()|;
  }

  lemma FirstTwoAreFirst(tables: Tables, failures: seq<Failure>)
    requires |failures| >= 2 && Wanted(tables, 0) && Wanted(tables, 1)
    requires failures[0].allocates && failures[1].allocates
    requires VariantsOf(tables, failures[0]) != [] && VariantsOf(tables, failures[1]) != []
    requires VariantsOf(tables, failures[0]) != VariantsOf(tables, failures[1])
    ensures IsFirstOfItsOwn(tables, failures, 0) && IsFirstOfItsOwn(tables, failures, 1)
  {
  }

  lemma NamedAlikeNames(tries: TryTest, failures: seq<Failure>, named: seq<Option<Failing>>)
    requires Resolved(NamedAlikeTables(), tries, failures, named)
    ensures |failures| == |named| == 3 && failures[0] == ALLOCATING && failures[1] == DOING_BOTH
    ensures var tables := NamedAlikeTables();
            && named[0] == Some(Minting(tables, 0, VariantsOf(tables, ALLOCATING)))
            && named[1] == Some(Minting(tables, 1, VariantsOf(tables, DOING_BOTH)))
    ensures !FirstsAreNamedApart(NamedAlikeTables(), failures)
  {
    var tables := NamedAlikeTables();
    NamedAlikeIsRead(tries);
    NamedAlikeResult(failures, 0);
    NamedAlikeResult(failures, 1);
    NamedAlikeAreWanted();
    NamedAlikeListsDiffer();
    FirstTwoAreFirst(tables, failures);
    FirstNamesItself(tables, failures, 0, named[0]);
    FirstNamesItself(tables, failures, 1, named[1]);
    NamesFoldAlike();
  }

  lemma NamedAlikeAreWanted()
    ensures Wanted(NamedAlikeTables(), 0) && Wanted(NamedAlikeTables(), 1)
    ensures !NamesStayApart(NamedAlikeTables())
  {
    NamesFoldAlike();
    assert Wanted(NamedAlikeTables(), 0) && Wanted(NamedAlikeTables(), 1);
  }

  lemma NamedAlikeTypes()
    ensures var tables := NamedAlikeTables();
            var first := Minting(tables, 0, VariantsOf(tables, ALLOCATING));
            var second := Minting(tables, 1, VariantsOf(tables, DOING_BOTH));
            && IsSameType(first, second) && first.name == Ascii("AB") + Ascii("Error")
            && Ascii("e") in second.variants && Ascii("e") !in first.variants
  {
    NamesFoldAlike();
    NamedAlikeVariants(Ascii("e"));
    assert |Ascii("e")| != |OutOfMemory()|;
  }

  /**
   * Two functions of one module whose names fold to one, and whose variants differ: both are given the type `ABError`,
   * the module declares it for the first, and the declared type lacks a variant the second needs.
   */
  lemma OneNameTwoLists(tries: TryTest, failures: seq<Failure>, named: seq<Option<Failing>>)
    requires Resolved(NamedAlikeTables(), tries, failures, named)
    ensures Passes(NamedAlikeTables()) && !NamesStayApart(NamedAlikeTables())
    ensures !FirstsAreNamedApart(NamedAlikeTables(), failures) && !TypesTellVariantsApart(named)
    ensures |named| == 3 && named[0].Some? && named[1].Some? && IsSameType(named[0].value, named[1].value)
    ensures named[0].value.name == Ascii("AB") + Ascii("Error")
    ensures Ascii("e") in named[1].value.variants && Ascii("e") !in named[0].value.variants
    ensures named[0].value in Declarations(named, named[0].value.module_, |named|) && !IsDeclaredAsListed(named, 1)
  {
    NamedAlikePasses();
    NamedAlikeNames(tries, failures, named);
    NamedAlikeAreWanted();
    NamedAlikeTypes();
    OnlyFirstIsDeclared(named);
  }

  lemma OnlyFirstIsDeclared(named: seq<Option<Failing>>)
    requires |named| >= 2 && named[0].Some? && named[1].Some? && IsSameType(named[0].value, named[1].value)
    requires named[0].value.variants != named[1].value.variants
    ensures named[0].value in Declarations(named, named[0].value.module_, |named|) && !IsDeclaredAsListed(named, 1)
  {
    var module_ := named[0].value.module_;
    FirstDeclarationStays(named, module_, |named|);
    DeclarationsAre(named, module_, |named|);
    OneDeclarationPerName(Declarations(named, module_, |named|), named[0].value, named[1].value);
  }

  lemma {:induction false} FirstDeclarationStays(named: seq<Option<Failing>>, module_: ModuleId, bound: nat)
    requires 0 < bound <= |named| && named[0].Some? && named[0].value.Generated? && named[0].value.module_ == module_
    ensures named[0].value in Declarations(named, module_, bound)
  {
    if bound == 1 {
      assert Declarations(named, module_, 0) == [];
      assert Declarations(named, module_, 1) == [named[0].value];
    } else {
      FirstDeclarationStays(named, module_, bound - 1);
    }
  }
}
