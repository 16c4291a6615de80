/** What the port calls the error each function can fail with. */
module Naming {
  import opened Basics
  import opened Facts
  import opened CallGraph
  import opened F = Failure
  import opened Validate
  import opened Reading

  datatype Failing =
    | Declared(id: StructId)
    | Generated(name: seq<u8>, module_: ModuleId, variants: seq<seq<u8>>)

  function OutOfMemory(): seq<u8> { Ascii("OutOfMemory") }

  lemma {:induction false} LeastExists(ids: set<u32>) returns (least: u32)
    requires ids != {}
    ensures least in ids && forall other :: other in ids ==> least <= other
    decreases ids
  {
    var pick :| pick in ids;
    var rest := ids - {pick};
    if rest == {} {
      least := pick;
    } else {
      var below := LeastExists(rest);
      least := if pick <= below then pick else below;
    }
    assert forall other :: other in ids ==> other == pick || other in rest;
  }

  ghost predicate IsLeast(least: u32, ids: set<u32>) {
    least in ids && forall other :: other in ids ==> least <= other
  }

  lemma SomeLeast(ids: set<u32>)
    requires ids != {}
    ensures exists least :: IsLeast(least, ids)
  {
    var least := LeastExists(ids);
    assert IsLeast(least, ids);
  }

  /** The members of a set of struct rows in ascending order, the way an ordered set walks them. */
  ghost function Ascending(ids: set<u32>): (r: seq<u32>)
    ensures forall id :: id in r <==> id in ids
    ensures forall i, j :: 0 <= i < j < |r| ==> r[i] < r[j]
    decreases ids
  {
    if ids == {} then []
    else
      SomeLeast(ids);
      var least :| IsLeast(least, ids);
      [least] + Ascending(ids - {least})
  }

  /** Adds the names of the fields from `start` on, each once. */
  function AddFields(tables: Tables, names: seq<seq<u8>>, start: nat, end: nat): seq<seq<u8>>
    decreases end - start
  {
    if start >= end then names
    else
      var name := NameAt(tables, tables.fields.name, start);
      AddFields(tables, if name in names then names else names + [name], start + 1, end)
  }

  function AddSets(tables: Tables, names: seq<seq<u8>>, ids: seq<u32>): seq<seq<u8>>
    decreases |ids|
  {
    if ids == [] then names
    else
      var range := FieldsOf(tables, ids[0]);
      AddSets(tables, AddFields(tables, names, range.start, range.end), ids[1..])
  }

  ghost function VariantsOf(tables: Tables, failure: Failure): seq<seq<u8>> {
    var names := AddSets(tables, [], Ascending(failure.sets));
    if failure.allocates && OutOfMemory() !in names then names + [OutOfMemory()] else names
  }

  /** The variant `name` is a field of one of the sets, or what running out of memory is called. */
  ghost predicate Names(tables: Tables, failure: Failure, name: seq<u8>) {
    || (exists id :: id in failure.sets && NamedIn(tables, id, name))
    || (failure.allocates && name == Ascii("OutOfMemory"))
  }

  ghost predicate NamedIn(tables: Tables, id: StructId, name: seq<u8>) {
    NamedBetween(tables, FieldsOf(tables, id).start, FieldsOf(tables, id).end, name)
  }

  ghost predicate Distinct(names: seq<seq<u8>>) {
    forall i, j :: 0 <= i < j < |names| ==> names[i] != names[j]
  }

  ghost predicate NamedBetween(tables: Tables, start: nat, end: nat, name: seq<u8>) {
    exists field :: start <= field < end && NameAt(tables, tables.fields.name, field) == name
  }

  lemma NamedBetweenNext(tables: Tables, start: nat, end: nat, name: seq<u8>)
    requires start < end
    ensures NamedBetween(tables, start, end, name) <==>
              NameAt(tables, tables.fields.name, start) == name || NamedBetween(tables, start + 1, end, name)
  {
    if NamedBetween(tables, start, end, name) {
      var field :| start <= field < end && NameAt(tables, tables.fields.name, field) == name;
      assert field == start || start + 1 <= field;
    }
  }

  lemma {:induction false} AddFieldsAre(tables: Tables, names: seq<seq<u8>>, start: nat, end: nat, name: seq<u8>)
    requires Distinct(names)
    ensures Distinct(AddFields(tables, names, start, end))
    ensures name in AddFields(tables, names, start, end) <==> name in names || NamedBetween(tables, start, end, name)
    decreases end - start
  {
    if start < end {
      var first := NameAt(tables, tables.fields.name, start);
      NamedBetweenNext(tables, start, end, name);
      AddFieldsAre(tables, if first in names then names else names + [first], start + 1, end, name);
    }
  }

  ghost predicate SomeSetNames(tables: Tables, ids: seq<u32>, name: seq<u8>) {
    exists id :: id in ids && NamedIn(tables, id, name)
  }

  lemma SomeSetNamesNext(tables: Tables, ids: seq<u32>, name: seq<u8>)
    requires ids != []
    ensures SomeSetNames(tables, ids, name) <==> NamedIn(tables, ids[0], name) || SomeSetNames(tables, ids[1..], name)
  {
    assert forall id :: id in ids <==> id == ids[0] || id in ids[1..];
  }

  lemma {:induction false} AddSetsAre(tables: Tables, names: seq<seq<u8>>, ids: seq<u32>, name: seq<u8>)
    requires Distinct(names)
    ensures Distinct(AddSets(tables, names, ids))
    ensures name in AddSets(tables, names, ids) <==> name in names || SomeSetNames(tables, ids, name)
    decreases |ids|
  {
    if ids != [] {
      var range := FieldsOf(tables, ids[0]);
      AddFieldsAre(tables, names, range.start, range.end, name);
      AddSetsAre(tables, AddFields(tables, names, range.start, range.end), ids[1..], name);
      SomeSetNamesNext(tables, ids, name);
    }
  }

  /** The variants are exactly the names the failure has, each once. */
  lemma VariantsAreNames(tables: Tables, failure: Failure, name: seq<u8>)
    ensures Distinct(VariantsOf(tables, failure))
    ensures name in VariantsOf(tables, failure) <==> Names(tables, failure, name)
  {
    AddSetsAre(tables, [], Ascending(failure.sets), name);
    AddSetsAre(tables, [], Ascending(failure.sets), OutOfMemory());
  }

  /** A callee's variants are all among its caller's wherever the caller holds all its callee holds. */
  lemma VariantsCarry(tables: Tables, callee: Failure, caller: Failure, name: seq<u8>)
    requires forall fact :: Has(callee, fact) ==> Has(caller, fact)
    requires name in VariantsOf(tables, callee)
    ensures name in VariantsOf(tables, caller)
  {
    VariantsAreNames(tables, callee, name);
    VariantsAreNames(tables, caller, name);
    assert Has(callee, Allocates) ==> Has(caller, Allocates);
    assert forall id :: id in callee.sets ==> Has(callee, InSet(id));
    assert forall id :: Has(caller, InSet(id)) ==> id in caller.sets;
  }

  /** Where the rounds have settled, a call never needs a variant the caller does not list. */
  lemma CallersCoverCallees(tables: Tables, program: Program, failures: seq<Failure>, row: nat, callee: nat)
    requires WellFormedProgram(program) && SaysAllHeld(program, failures)
    requires Settled(program, RoundLimit(|program.own|))
    requires row < |failures| && callee < |failures| && callee in program.reaches[row]
    ensures forall name :: name in VariantsOf(tables, failures[callee]) ==> name in VariantsOf(tables, failures[row])
  {
    SettledResultsCarry(program, failures, row, callee);
    WithinIsAllFacts(failures[callee], failures[row]);
    forall name | name in VariantsOf(tables, failures[callee])
      ensures name in VariantsOf(tables, failures[row])
    {
      VariantsCarry(tables, failures[callee], failures[row], name);
    }
  }

  /** Up to 65 functions the rounds always have. */
  lemma SmallCallersCoverCallees(tables: Tables, program: Program, failures: seq<Failure>, row: nat, callee: nat)
    requires WellFormedProgram(program) && SaysAllHeld(program, failures) && |failures| <= 65
    requires row < |failures| && callee < |failures| && callee in program.reaches[row]
    ensures forall name :: name in VariantsOf(tables, failures[callee]) ==> name in VariantsOf(tables, failures[row])
  {
    SmallProgramsAreExact(program);
    ExactExactlyWhenSettled(program);
    CallersCoverCallees(tables, program, failures, row, callee);
  }

  // ---- Choosing and sharing names -------------------------------------------------------------

  function Uppercase(byte: u8): u8 {
    if 'a' as int <= byte <= 'z' as int then byte - 32 else byte
  }

  /** Underscores dropped, and the byte after each of them, or at the start, capitalised. */
  function PascalFrom(name: seq<u8>, capitalise: bool): seq<u8> {
    if name == [] then []
    else if name[0] == '_' as int then PascalFrom(name[1..], true)
    else [if capitalise then Uppercase(name[0]) else name[0]] + PascalFrom(name[1..], false)
  }

  function PascalCase(name: seq<u8>): seq<u8> {
    PascalFrom(name, true)
  }

  /** A byte of a name that is not an underscore, in upper case at the start and after an underscore. */
  function BigLetter(previous: Option<u8>, byte: u8): seq<u8> {
    if byte == 95 then []
    else if (previous == None || previous == Some(95)) && 97 <= byte <= 122 then [byte - 32]
    else [byte]
  }

  /** The letters of the first `bound` bytes, each with the one before it in view. */
  function BigLetters(name: seq<u8>, bound: nat): seq<u8>
    requires bound <= |name|
  {
    if bound == 0 then []
    else
      BigLetters(name, bound - 1)
        + BigLetter(if bound == 1 then None else Some(name[bound - 2]), name[bound - 1])
  }

  lemma {:induction false} PascalFromMiddle(name: seq<u8>, i: nat)
    requires i <= |name|
    ensures BigLetters(name, i) + PascalFrom(name[i..], i == 0 || name[i - 1] == 95) == BigLetters(name, |name|)
    decreases |name| - i
  {
    if i < |name| {
      assert name[i..][1..] == name[i + 1..];
      PascalFromMiddle(name, i + 1);
    }
  }

  /** Each letter of a name comes across by itself and the one before it. */
  lemma PascalCaseIsLetters(name: seq<u8>)
    ensures PascalCase(name) == BigLetters(name, |name|)
  {
    PascalFromMiddle(name, 0);
    assert name[0..] == name;
  }

  lemma PascalFromNext(out: seq<u8>, name: seq<u8>, position: nat, capitalise: bool)
    requires position < |name|
    ensures var byte, rest := name[position], name[position + 1..];
            out + PascalFrom(name[position..], capitalise)
            == if byte == '_' as int then out + PascalFrom(rest, true)
               else out + [if capitalise then Uppercase(byte) else byte] + PascalFrom(rest, false)
  {
    assert name[position..][1..] == name[position + 1..];
  }

  method ToPascalCase(name: seq<u8>) returns (out: seq<u8>)
    ensures out == PascalCase(name)
  {
    out := [];
    var capitalise := true;
    for position := 0 to |name|
      invariant out + PascalFrom(name[position..], capitalise) == PascalCase(name)
    {
      var byte := name[position];
      PascalFromNext(out, name, position, capitalise);
      if byte == '_' as int {
        capitalise := true;
      } else {
        out := out + [if capitalise then Uppercase(byte) else byte];
        capitalise := false;
      }
    }
    assert name[|name|..] == [];
  }

  function OwnerName(tables: Tables, row: nat): seq<u8> {
    match Get(tables.functions.owner, row)
    case Some(owner) => if owner != NO_INDEX then NameAt(tables, tables.structs.name, owner) else []
    case None => []
  }

  function FunctionModule(tables: Tables, row: nat): ModuleId {
    match Get(tables.functions.module_, row)
    case Some(id) => id
    case None => ROOT_MODULE
  }

  /** The function is fallible and its Zig left the error set to the compiler. */
  predicate Wanted(tables: Tables, row: nat) {
    && row < |tables.functions.flags|
    && tables.functions.flags[row] % 2 == FUNCTION_FLAG_FALLIBLE
    && DeclaredSet(tables, row).None?
  }

  /** One declared set and nothing else. */
  ghost predicate IsLone(failure: Failure) {
    (exists id :: failure.sets == {id}) && !failure.allocates
  }

  function Minting(tables: Tables, row: nat, variants: seq<seq<u8>>): Failing {
    Generated(
      PascalCase(OwnerName(tables, row)) + PascalCase(NameAt(tables, tables.functions.name, row)) + Ascii("Error"),
      FunctionModule(tables, row),
      variants)
  }

  /** The text a row of a column of handles names, where the row is there. */
  function NameIn(tables: Tables, names: seq<StringId>, row: nat): seq<u8> {
    if row < |names| then StringBytes(tables.strings, names[row]) else []
  }

  /** A generated type is called after the struct and then the function, and is declared where the function is. */
  lemma MintingIs(tables: Tables, row: nat, variants: seq<seq<u8>>)
    ensures var functions := tables.functions;
            var owner := if row < |functions.owner| && functions.owner[row] != NO_INDEX then
                           NameIn(tables, tables.structs.name, functions.owner[row])
                         else [];
            var name := NameIn(tables, functions.name, row);
            Minting(tables, row, variants)
            == Generated(
                 BigLetters(owner, |owner|) + BigLetters(name, |name|) + Ascii("Error"),
                 if row < |functions.module_| then functions.module_[row] else 0, variants)
  {
    PascalCaseIsLetters(OwnerName(tables, row));
    PascalCaseIsLetters(NameAt(tables, tables.functions.name, row));
  }

  ghost predicate Mints(tables: Tables, failures: seq<Failure>, row: nat) {
    && row < |failures|
    && Wanted(tables, row)
    && VariantsOf(tables, failures[row]) != []
    && !IsLone(failures[row])
  }

  /** `first` is the first function to need a generated set with the variants `variants`. */
  ghost predicate IsFirst(tables: Tables, failures: seq<Failure>, first: nat, variants: seq<seq<u8>>) {
    && Mints(tables, failures, first)
    && VariantsOf(tables, failures[first]) == variants
    && forall earlier: nat :: earlier < first && Mints(tables, failures, earlier) ==>
         VariantsOf(tables, failures[earlier]) != variants
  }

  /** What a function's error is called. */
  ghost predicate NamedAs(tables: Tables, failures: seq<Failure>, row: nat, named: Option<Failing>)
    requires row < |failures|
  {
    var failure := failures[row];
    var variants := VariantsOf(tables, failure);
    if !Wanted(tables, row) || variants == [] then named == None
    else if IsLone(failure) then
      named.Some? && named.value.Declared? && failure.sets == {named.value.id}
    else
      exists first: nat :: first <= row && IsFirst(tables, failures, first, variants)
                           && named == Some(Minting(tables, first, variants))
  }

  lemma LeastIsFirst(ids: set<u32>, least: u32)
    requires IsLeast(least, ids)
    ensures Ascending(ids) == [least] + Ascending(ids - {least})
  {
    assert forall other :: IsLeast(other, ids) ==> other == least;
  }

  method AddFieldNames(tables: Tables, names: seq<seq<u8>>, range: Range) returns (names': seq<seq<u8>>)
    ensures names' == AddFields(tables, names, range.start, range.end)
  {
    names' := names;
    if range.start < range.end {
      for field := range.start to range.end
        invariant AddFields(tables, names', field, range.end) == AddFields(tables, names, range.start, range.end)
      {
        var name := NameAt(tables, tables.fields.name, field);
        if name !in names' {
          names' := names' + [name];
        }
      }
    }
  }

  method ListVariants(tables: Tables, failure: Failure) returns (variants: seq<seq<u8>>)
    ensures variants == VariantsOf(tables, failure)
  {
    variants := [];
    var remaining := failure.sets;
    while remaining != {}
      invariant AddSets(tables, variants, Ascending(remaining)) == AddSets(tables, [], Ascending(failure.sets))
      decreases remaining
    {
      ghost var least := LeastExists(remaining);
      var id: u32 :| id in remaining && forall other :: other in remaining ==> id <= other;
      LeastIsFirst(remaining, id);
      remaining := remaining - {id};
      variants := AddFieldNames(tables, variants, FieldsOf(tables, id));
      assert ([id] + Ascending(remaining))[1..] == Ascending(remaining);
    }
    assert Ascending({}) == [];
    if failure.allocates && OutOfMemory() !in variants {
      variants := variants + [OutOfMemory()];
    }
  }

  method OnlyMember(ids: set<u32>) returns (lone: bool, only: u32)
    ensures lone <==> exists id :: ids == {id}
    ensures lone ==> ids == {only}
  {
    lone, only := false, 0;
    if ids != {} {
      ghost var least := LeastExists(ids);
      var id: u32 :| id in ids && forall other :: other in ids ==> id <= other;
      lone, only := ids == {id}, id;
    }
  }

  /** An entry was made for the first function to need its variants, one of the first `bound`. */
  ghost predicate MadeBefore(tables: Tables, failures: seq<Failure>, bound: nat, entry: (seq<seq<u8>>, Failing)) {
    exists first: nat :: first < bound && IsFirst(tables, failures, first, entry.0)
                         && entry.1 == Minting(tables, first, entry.0)
  }

  ghost predicate HasEntry(minted: seq<(seq<seq<u8>>, Failing)>, variants: seq<seq<u8>>) {
    exists i :: 0 <= i < |minted| && minted[i].0 == variants
  }

  /** The sets generated so far: one entry for each list of variants the first `bound` functions need. */
  ghost predicate Minted(
    tables: Tables, failures: seq<Failure>, bound: nat, minted: seq<(seq<seq<u8>>, Failing)>)
  {
    AllMade(tables, failures, bound, minted) && AllCovered(tables, failures, bound, minted)
  }

  ghost predicate AllMade(tables: Tables, failures: seq<Failure>, bound: nat, minted: seq<(seq<seq<u8>>, Failing)>) {
    forall i :: 0 <= i < |minted| ==> MadeBefore(tables, failures, bound, minted[i])
  }

  ghost predicate AllCovered(tables: Tables, failures: seq<Failure>, bound: nat, minted: seq<(seq<seq<u8>>, Failing)>) {
    forall row: nat :: row < bound && Mints(tables, failures, row) ==>
      HasEntry(minted, VariantsOf(tables, failures[row]))
  }

  lemma MadeEarlier(tables: Tables, failures: seq<Failure>, bound: nat, entry: (seq<seq<u8>>, Failing))
    requires MadeBefore(tables, failures, bound, entry)
    ensures MadeBefore(tables, failures, bound + 1, entry)
  {
    var first: nat :| first < bound && IsFirst(tables, failures, first, entry.0)
                      && entry.1 == Minting(tables, first, entry.0);
    assert first < bound + 1;
  }

  lemma AllMadeEarlier(tables: Tables, failures: seq<Failure>, row: nat, minted: seq<(seq<seq<u8>>, Failing)>)
    requires AllMade(tables, failures, row, minted)
    ensures AllMade(tables, failures, row + 1, minted)
  {
    forall i | 0 <= i < |minted|
      ensures MadeBefore(tables, failures, row + 1, minted[i])
    {
      MadeEarlier(tables, failures, row, minted[i]);
    }
  }

  lemma MintedSkips(tables: Tables, failures: seq<Failure>, row: nat, minted: seq<(seq<seq<u8>>, Failing)>)
    requires Minted(tables, failures, row, minted)
    requires Mints(tables, failures, row) ==> HasEntry(minted, VariantsOf(tables, failures[row]))
    ensures Minted(tables, failures, row + 1, minted)
  {
    AllMadeEarlier(tables, failures, row, minted);
  }

  lemma NewlyFirst(tables: Tables, failures: seq<Failure>, row: nat, minted: seq<(seq<seq<u8>>, Failing)>)
    requires Minted(tables, failures, row, minted) && Mints(tables, failures, row)
    requires !HasEntry(minted, VariantsOf(tables, failures[row]))
    ensures IsFirst(tables, failures, row, VariantsOf(tables, failures[row]))
  {
  }

  lemma EntryCovers(minted: seq<(seq<seq<u8>>, Failing)>, entry: (seq<seq<u8>>, Failing), variants: seq<seq<u8>>)
    requires HasEntry(minted, variants) || entry.0 == variants
    ensures HasEntry(minted + [entry], variants)
  {
    var longer := minted + [entry];
    if HasEntry(minted, variants) {
      var i :| 0 <= i < |minted| && minted[i].0 == variants;
      assert longer[i] == minted[i];
    } else {
      assert longer[|minted|] == entry;
    }
  }

  lemma CoveredNext(
    tables: Tables, failures: seq<Failure>, row: nat, minted: seq<(seq<seq<u8>>, Failing)>,
    entry: (seq<seq<u8>>, Failing))
    requires AllCovered(tables, failures, row, minted)
    requires row < |failures| && entry.0 == VariantsOf(tables, failures[row])
    ensures AllCovered(tables, failures, row + 1, minted + [entry])
  {
    forall r: nat | r < row + 1 && Mints(tables, failures, r)
      ensures HasEntry(minted + [entry], VariantsOf(tables, failures[r]))
    {
      EntryCovers(minted, entry, VariantsOf(tables, failures[r]));
    }
  }

  lemma MintedNext(
    tables: Tables, failures: seq<Failure>, row: nat, minted: seq<(seq<seq<u8>>, Failing)>,
    entry: (seq<seq<u8>>, Failing))
    requires Minted(tables, failures, row, minted) && row < |failures|
    requires entry.0 == VariantsOf(tables, failures[row]) && MadeBefore(tables, failures, row + 1, entry)
    ensures Minted(tables, failures, row + 1, minted + [entry])
  {
    AllMadeEarlier(tables, failures, row, minted);
    CoveredNext(tables, failures, row, minted, entry);
  }

  method FindMinted(minted: seq<(seq<seq<u8>>, Failing)>, variants: seq<seq<u8>>) returns (found: Option<Failing>)
    ensures found.None? ==> !HasEntry(minted, variants)
    ensures found.Some? ==> exists i :: 0 <= i < |minted| && minted[i] == (variants, found.value)
  {
    for i := 0 to |minted|
      invariant forall j :: 0 <= j < i ==> minted[j].0 != variants
    {
      if minted[i].0 == variants {
        assert minted[i] == (variants, minted[i].1);
        return Some(minted[i].1);
      }
    }
    return None;
  }

  /** Names one function's error, minting a set where no earlier function made the same one. */
  method NameOne(tables: Tables, failures: seq<Failure>, row: nat, minted: seq<(seq<seq<u8>>, Failing)>)
    returns (named: Option<Failing>, minted': seq<(seq<seq<u8>>, Failing)>)
    requires row < |failures| && Minted(tables, failures, row, minted)
    ensures NamedAs(tables, failures, row, named)
    ensures Minted(tables, failures, row + 1, minted')
  {
    named, minted' := None, minted;
    if !Wanted(tables, row) {
      MintedSkips(tables, failures, row, minted);
      return;
    }
    var failure := failures[row];
    var variants := ListVariants(tables, failure);
    if variants == [] {
      MintedSkips(tables, failures, row, minted);
      return;
    }
    var lone, only := OnlyMember(failure.sets);
    if lone && !failure.allocates {
      MintedSkips(tables, failures, row, minted);
      return Some(Declared(only)), minted;
    }
    var already := FindMinted(minted, variants);
    if already.Some? {
      MintedSkips(tables, failures, row, minted);
      return already, minted;
    }
    NewlyFirst(tables, failures, row, minted);
    assert MadeBefore(tables, failures, row + 1, (variants, Minting(tables, row, variants)));
    MintedNext(tables, failures, row, minted, (variants, Minting(tables, row, variants)));
    named := Some(Minting(tables, row, variants));
    minted' := minted + [(variants, Minting(tables, row, variants))];
  }

  method NameFailures(tables: Tables, failures: seq<Failure>) returns (named: seq<Option<Failing>>)
    ensures |named| == |failures|
    ensures forall row :: 0 <= row < |failures| ==> NamedAs(tables, failures, row, named[row])
  {
    named := [];
    var minted: seq<(seq<seq<u8>>, Failing)> := [];
    for row := 0 to |failures|
      invariant |named| == row && Minted(tables, failures, row, minted)
      invariant forall r :: 0 <= r < row ==> NamedAs(tables, failures, r, named[r])
    {
      var one;
      one, minted := NameOne(tables, failures, row, minted);
      named := named + [one];
    }
  }

  /** What the tables and every body make of a whole program. */
  ghost function ProgramOf(tables: Tables, tries: TryTest): (program: Program)
    ensures WellFormedProgram(program) && |program.own| == FunctionCount(tables.functions)
  {
    ProgramFrom(tables, seq(FunctionCount(tables.functions), row requires 0 <= row => BodyRead(tables, tries, row)))
  }

  /** The names follow from what each function owns and reaches, carried up the calls. */
  ghost predicate Resolved(tables: Tables, tries: TryTest, failures: seq<Failure>, named: seq<Option<Failing>>) {
    && SaysAllHeld(ProgramOf(tables, tries), failures)
    && |named| == |failures|
    && forall row :: 0 <= row < |named| ==> NamedAs(tables, failures, row, named[row])
  }

  method CollectProgram(tables: Tables, tries: TryTest) returns (program: Program)
    ensures program == ProgramOf(tables, tries)
  {
    var readings := ReadBodies(tables, tries);
    assert readings == seq(FunctionCount(tables.functions), row requires 0 <= row => BodyRead(tables, tries, row));
    program := Collect(tables, readings);
  }

  /** Reads every body, collects, propagates and names. */
  method ResolveFailures(tables: Tables, tries: TryTest) returns (named: seq<Option<Failing>>)
    ensures exists failures :: Resolved(tables, tries, failures, named)
  {
    var program := CollectProgram(tables, tries);
    var failures, _ := Propagate(program);
    named := NameFailures(tables, failures);
    assert Resolved(tables, tries, failures, named);
  }

  /** Whether the cap on rounds takes anything from the failures of the program in the tables. */
  method FailuresAreExact(tables: Tables, tries: TryTest) returns (exact: bool)
    ensures exact <==> ExactFor(ProgramOf(tables, tries))
  {
    var program := CollectProgram(tables, tries);
    exact := CapIsHarmless(program);
  }

  // ---- What a name promises its callers --------------------------------------------------------------

  /** The error type of a function: the set its Zig declared, or the one it was given. */
  function ErrorOf(tables: Tables, named: seq<Option<Failing>>, row: nat): Option<Failing>
    requires row < |named|
  {
    match DeclaredSet(tables, row)
    case Some(id) => Some(Declared(id))
    case None => named[row]
  }

  /** The variants a type lists. */
  ghost function ListedBy(tables: Tables, failing: Failing): seq<seq<u8>> {
    match failing
    case Declared(id) => VariantsOf(tables, F.Failure({id}, false, false))
    case Generated(_, _, variants) => variants
  }

  /** A name lists exactly the variants of the function it names. */
  lemma NamesListTheirVariants(tables: Tables, failures: seq<Failure>, row: nat, named: Option<Failing>)
    requires row < |failures| && NamedAs(tables, failures, row, named) && named.Some?
    ensures ListedBy(tables, named.value) == VariantsOf(tables, failures[row])
  {
  }

  lemma DeclaredSetIsHeld(program: Program, failures: seq<Failure>, row: nat, id: StructId)
    requires WellFormedProgram(program) && SaysAllHeld(program, failures)
    requires row < |failures| && id in program.own[row].sets
    ensures id in failures[row].sets
  {
    var limit := RoundLimit(|program.own|);
    assert Has(program.own[row], InSet(id));
    HeldAtStart(program, row, InSet(id));
    HeldLonger(program, 0, limit, row, InSet(id));
    assert SaysHeld(program, limit, row, failures[row]);
    assert Has(failures[row], InSet(id));
  }

  lemma ErrorListsWhatIsHeld(
    tables: Tables, tries: TryTest, failures: seq<Failure>, named: seq<Option<Failing>>, row: nat, name: seq<u8>)
    requires Resolved(tables, tries, failures, named) && row < |named|
    requires ErrorOf(tables, named, row).Some? && name in ListedBy(tables, ErrorOf(tables, named, row).value)
    ensures name in VariantsOf(tables, failures[row])
  {
    match DeclaredSet(tables, row)
    case Some(id) =>
      DeclaredSetIsHeld(ProgramOf(tables, tries), failures, row, id);
      VariantsCarry(tables, F.Failure({id}, false, false), failures[row], name);
    case None =>
      NamesListTheirVariants(tables, failures, row, named[row]);
  }

  /** One function's body tries another, or the call table has it call it. */
  ghost predicate LetsThrough(tables: Tables, tries: TryTest, row: nat, callee: FunctionId) {
    Says(BodyRead(tables, tries, row), Tries(callee)) || HasCall(tables, row, callee)
  }

  lemma LetsThroughIsReached(tables: Tables, tries: TryTest, row: nat, callee: FunctionId)
    requires row < FunctionCount(tables.functions)
    ensures LetsThrough(tables, tries, row, callee) <==> callee in ProgramOf(tables, tries).reaches[row]
  {
    ReachesAre(tables, row, BodyRead(tables, tries, row), callee);
  }

  /**
   * Where the rounds have settled, a fallible function with no declared set is given a name whenever a function it
   * lets through has a variant to give, whether the other's set was declared or inferred, and the list it was named
   * for holds that variant. `DeclaredTypesCoverWhatIsLetThrough` says when the type declared under the name does.
   */
  lemma NamesCoverWhatIsLetThrough(
    tables: Tables, tries: TryTest, failures: seq<Failure>, named: seq<Option<Failing>>, row: nat, callee: FunctionId,
    name: seq<u8>)
    requires Resolved(tables, tries, failures, named)
    requires Settled(ProgramOf(tables, tries), RoundLimit(|failures|))
    requires row < |named| && callee < |named| && LetsThrough(tables, tries, row, callee) && Wanted(tables, row)
    requires var error := ErrorOf(tables, named, callee);
             error.Some? && name in ListedBy(tables, error.value)
    ensures named[row].Some? && name in ListedBy(tables, named[row].value)
  {
    LetsThroughIsReached(tables, tries, row, callee);
    ErrorListsWhatIsHeld(tables, tries, failures, named, callee, name);
    CallersCoverCallees(tables, ProgramOf(tables, tries), failures, row, callee);
    assert name in VariantsOf(tables, failures[row]);
    assert NamedAs(tables, failures, row, named[row]);
    NamesListTheirVariants(tables, failures, row, named[row]);
  }

  lemma NothingHeldNothingListed(tables: Tables, failure: Failure)
    requires failure.sets == {} && !failure.allocates
    ensures VariantsOf(tables, failure) == []
  {
    assert Ascending(failure.sets) == [];
  }

  /** And the other way: a function that keeps one declared set only lets through functions of that set, or of none. */
  lemma LoneSetsOnlyMeetThemselves(
    tables: Tables, tries: TryTest, failures: seq<Failure>, named: seq<Option<Failing>>, row: nat, callee: FunctionId,
    id: StructId)
    requires Resolved(tables, tries, failures, named)
    requires Settled(ProgramOf(tables, tries), RoundLimit(|failures|))
    requires row < |named| && callee < |named| && LetsThrough(tables, tries, row, callee)
    requires named[row] == Some(Declared(id))
    ensures ErrorOf(tables, named, callee) == None || ErrorOf(tables, named, callee) == Some(Declared(id))
  {
    var program := ProgramOf(tables, tries);
    LetsThroughIsReached(tables, tries, row, callee);
    SettledResultsCarry(program, failures, row, callee);
    assert NamedAs(tables, failures, row, named[row]) && NamedAs(tables, failures, callee, named[callee]);
    assert failures[callee].sets <= {id} && !failures[callee].allocates;
    match DeclaredSet(tables, callee)
    case Some(declared) =>
      DeclaredSetIsHeld(program, failures, callee, declared);
    case None =>
      if failures[callee].sets == {} {
        NothingHeldNothingListed(tables, failures[callee]);
      } else {
        assert failures[callee].sets == {id};
        assert IsLone(failures[callee]);
      }
  }

  // ---- What the cap on rounds can take from a name -----------------------------------------------------

  lemma StaircaseIsRead(tries: TryTest, steps: nat)
    requires steps < NO_INDEX
    ensures ProgramOf(StaircaseTables(steps), tries) == Staircase(steps)
  {
    var tables := StaircaseTables(steps);
    StaircaseTablesMakeIt(
      steps, seq(FunctionCount(tables.functions), row requires 0 <= row => BodyRead(tables, tries, row)));
  }

  lemma StaircaseIsWanted(steps: nat, row: nat)
    requires steps < NO_INDEX && row < steps
    ensures Wanted(StaircaseTables(steps), row)
  {
  }

  /** A function with nothing to fail with has no name, and one with a lone set of some variants keeps it. */
  lemma NameOfLoneSet(tables: Tables, failures: seq<Failure>, row: nat, named: Option<Failing>, id: StructId)
    requires row < |failures| && NamedAs(tables, failures, row, named) && Wanted(tables, row)
    requires VariantsOf(tables, F.Failure({id}, false, false)) != []
    ensures failures[row] == NOTHING ==> named == None
    ensures failures[row] == F.Failure({id}, false, false) ==> named == Some(Declared(id))
  {
    if failures[row] == NOTHING {
      NothingHeldNothingListed(tables, NOTHING);
    } else if failures[row] == F.Failure({id}, false, false) {
      assert IsLone(failures[row]);
      assert id in {named.value.id};
    }
  }

  lemma OneNameIsListed(steps: nat)
    requires steps < NO_INDEX
    ensures VariantsOf(StaircaseTables(steps), F.Failure({0}, false, false)) != []
  {
    var tables, failure := StaircaseTables(steps), F.Failure({0}, false, false);
    var name := NameAt(tables, tables.fields.name, 0);
    assert NamedBetween(tables, FieldsOf(tables, 0).start, FieldsOf(tables, 0).end, name);
    assert 0 in failure.sets && NamedIn(tables, 0, name);
    VariantsAreNames(tables, failure, name);
  }

  lemma StaircaseResult(tries: TryTest, steps: nat, failures: seq<Failure>, row: nat)
    requires steps < NO_INDEX && row <= steps && SaysAllHeld(Staircase(steps), failures)
    ensures failures[row]
         == if steps - row <= RoundLimit(steps + 1) then F.Failure({0}, false, false) else NOTHING
  {
    var limit := RoundLimit(steps + 1);
    var expected := if steps - row <= limit then F.Failure({0}, false, false) else NOTHING;
    assert SaysHeld(Staircase(steps), limit, row, failures[row]);
    forall fact
      ensures Has(failures[row], fact) <==> Has(expected, fact)
    {
      StaircaseHolds(steps, limit, row, fact);
    }
    FactsDetermineFailure(failures[row], expected);
  }

  /**
   * In a row of functions that each call the next, with an error set declared on the last, every function within 64
   * calls of the last keeps that set and every function further away is given no name, though it reaches the set too.
   */
  lemma CapLeavesCallersUnnamed(
    tries: TryTest, steps: nat, failures: seq<Failure>, named: seq<Option<Failing>>, row: nat)
    requires steps < NO_INDEX && row < steps && Resolved(StaircaseTables(steps), tries, failures, named)
    ensures Passes(StaircaseTables(steps))
    ensures ProgramOf(StaircaseTables(steps), tries) == Staircase(steps)
    ensures Wanted(StaircaseTables(steps), row) && Reached(Staircase(steps), row, InSet(0))
    ensures named[row] == if steps - row <= 64 then Some(Declared(0)) else None
  {
    var tables := StaircaseTables(steps);
    StaircasePasses(steps);
    StaircaseIsRead(tries, steps);
    StaircaseHolds(steps, 0, row, InSet(0));
    StaircaseResult(tries, steps, failures, row);
    StaircaseIsWanted(steps, row);
    OneNameIsListed(steps);
    NameOfLoneSet(tables, failures, row, named[row], 0);
  }

  /** Functions that fail the same way are given the same type. */
  lemma SameFailureSameName(
    tables: Tables, failures: seq<Failure>, a: nat, b: nat, first: Option<Failing>, second: Option<Failing>)
    requires a < |failures| && b < |failures| && Wanted(tables, a) && Wanted(tables, b)
    requires failures[a].sets == failures[b].sets && failures[a].allocates == failures[b].allocates
    requires NamedAs(tables, failures, a, first) && NamedAs(tables, failures, b, second)
    ensures first == second
  {
    assert VariantsOf(tables, failures[a]) == VariantsOf(tables, failures[b]);
    if Mints(tables, failures, a) {
      GeneratedNamesFollowVariants(tables, failures, a, b, first, second);
    } else if first.Some? {
      assert first.value.id in failures[b].sets;
    }
  }

  /** Two functions are given one and the same generated record exactly when they list the same variants. */
  lemma GeneratedNamesFollowVariants(
    tables: Tables, failures: seq<Failure>, a: nat, b: nat, first: Option<Failing>, second: Option<Failing>)
    requires Mints(tables, failures, a) && Mints(tables, failures, b)
    requires NamedAs(tables, failures, a, first) && NamedAs(tables, failures, b, second)
    ensures first == second <==> VariantsOf(tables, failures[a]) == VariantsOf(tables, failures[b])
  {
    var mine, theirs := VariantsOf(tables, failures[a]), VariantsOf(tables, failures[b]);
    var m: nat :| m <= a && IsFirst(tables, failures, m, mine) && first == Some(Minting(tables, m, mine));
    var t: nat :| t <= b && IsFirst(tables, failures, t, theirs) && second == Some(Minting(tables, t, theirs));
    if mine == theirs {
      FirstIsUnique(tables, failures, m, t, mine);
    }
  }

  lemma FirstIsUnique(tables: Tables, failures: seq<Failure>, one: nat, other: nat, variants: seq<seq<u8>>)
    requires IsFirst(tables, failures, one, variants) && IsFirst(tables, failures, other, variants)
    ensures one == other
  {
  }
}
