/** Who owns what each field points at, read off the call graph and the allocators together. */
module Ownership {
  import opened Basics
  import opened Facts
  import opened Grouping
  import opened CallGraph
  import P = Provenance

  const TYPE_FLAG_OVER_ALIGNED: u32 := 2

  datatype OwnershipClass = Value | Owned | Borrowed | Static | InArena | Unknown | Grown

  datatype Confidence = High | Medium | Low

  datatype EvidenceKind =
    | FreedInDeinitClosure
    | FreedOutsideDeinitClosure
    | AssignedFromAllocation
    | AssignedFromParameter
    | AssignedFromLiteral
    | AssignedFromUnknown
    | AllocatorIsGlobal
    | AllocatorIsArena
    | AllocatorIsConflicting
    | NoAssignmentsFound
    | ResizedAfterAllocation
    | AlignmentCannotBeCarried

  datatype Evidence = Evidence(kind: EvidenceKind, func: FunctionId)

  // ---- The rows that touch a field --------------------------------------------------------

  /** The field of a parameter that the row works on, where it is a row of that kind and the field is in the tables. */
  function OperatedField(tables: Tables, row: nat, wanted: MemoryOperationKind): (r: Option<FieldId>)
    ensures r.Some? ==> r.value < FieldCount(tables.fields)
  {
    var operations := tables.memoryOperations;
    if Get(operations.kind, row) != Some(wanted) then None
    else if Get(operations.place, row) != Some(FieldOfParameter) then None
    else
      match Get(operations.placeField, row)
      case Some(field) => if field < FieldCount(tables.fields) then Some(field) else None
      case None => None
  }

  /** A direct scan for the operations of one kind on one field. */
  function RowsOperating(tables: Tables, wanted: MemoryOperationKind, field: nat, bound: nat): (r: seq<u32>)
    requires bound <= NO_INDEX
    ensures forall i :: 0 <= i < |r| ==> r[i] < bound
  {
    if bound == 0 then []
    else
      RowsOperating(tables, wanted, field, bound - 1)
        + (if OperatedField(tables, bound - 1, wanted) == Some(field) then [bound - 1] else [])
  }

  /** A direct scan for the assignments to one field. */
  function RowsAssigning(tables: Tables, field: nat, bound: nat): (r: seq<u32>)
    requires bound <= |tables.fieldAssignments.field| && bound <= NO_INDEX
    ensures forall i :: 0 <= i < |r| ==> r[i] < bound
  {
    if bound == 0 then []
    else
      RowsAssigning(tables, field, bound - 1)
        + (if tables.fieldAssignments.field[bound - 1] == field then [bound - 1] else [])
  }

  lemma {:induction false} RowsOperatingAre(
    tables: Tables, wanted: MemoryOperationKind, field: nat, bound: nat, row: nat)
    requires bound <= NO_INDEX
    ensures row in RowsOperating(tables, wanted, field, bound) <==>
              row < bound && OperatedField(tables, row, wanted) == Some(field)
  {
    if bound > 0 {
      RowsOperatingAre(tables, wanted, field, bound - 1, row);
    }
  }

  lemma {:induction false} RowsAssigningAre(tables: Tables, field: nat, bound: nat, row: nat)
    requires bound <= |tables.fieldAssignments.field| && bound <= NO_INDEX
    ensures row in RowsAssigning(tables, field, bound) <==>
              row < bound && tables.fieldAssignments.field[row] == field
  {
    if bound > 0 {
      RowsAssigningAre(tables, field, bound - 1, row);
    }
  }

  function OperatedPairs(tables: Tables, wanted: MemoryOperationKind, bound: nat): (r: seq<(nat, u32)>)
    requires bound <= NO_INDEX
    ensures |r| <= bound
    ensures forall i :: 0 <= i < |r| ==> r[i].0 < FieldCount(tables.fields)
  {
    if bound == 0 then []
    else
      var field := OperatedField(tables, bound - 1, wanted);
      OperatedPairs(tables, wanted, bound - 1) + (if field.Some? then [(field.value, bound - 1)] else [])
  }

  function AssignedPairs(tables: Tables, bound: nat): (r: seq<(nat, u32)>)
    requires bound <= |tables.fieldAssignments.field| && bound <= NO_INDEX
    ensures |r| <= bound
    ensures forall i :: 0 <= i < |r| ==> r[i].0 < FieldCount(tables.fields)
  {
    if bound == 0 then []
    else
      var field := tables.fieldAssignments.field[bound - 1];
      AssignedPairs(tables, bound - 1) + (if field < FieldCount(tables.fields) then [(field, bound - 1)] else [])
  }

  lemma {:induction false} BucketOfOperated(tables: Tables, wanted: MemoryOperationKind, field: nat, bound: nat)
    requires bound <= NO_INDEX && field < FieldCount(tables.fields)
    ensures Bucket(OperatedPairs(tables, wanted, bound), field) == RowsOperating(tables, wanted, field, bound)
  {
    if bound > 0 {
      BucketOfOperated(tables, wanted, field, bound - 1);
      var pairs, fewer := OperatedPairs(tables, wanted, bound), OperatedPairs(tables, wanted, bound - 1);
      if |pairs| > |fewer| {
        assert pairs[..|pairs| - 1] == fewer;
      } else {
        assert pairs == fewer;
      }
    }
  }

  lemma {:induction false} BucketOfAssigned(tables: Tables, field: nat, bound: nat)
    requires bound <= |tables.fieldAssignments.field| && bound <= NO_INDEX && field < FieldCount(tables.fields)
    ensures Bucket(AssignedPairs(tables, bound), field) == RowsAssigning(tables, field, bound)
  {
    if bound > 0 {
      BucketOfAssigned(tables, field, bound - 1);
      var pairs, fewer := AssignedPairs(tables, bound), AssignedPairs(tables, bound - 1);
      if |pairs| > |fewer| {
        assert pairs[..|pairs| - 1] == fewer;
      } else {
        assert pairs == fewer;
      }
    }
  }

  // ---- The index ----------------------------------------------------------------------------

  datatype FieldIndex = FieldIndex(
    freeStart: seq<u32>,
    freeRows: seq<u32>,
    resizeStart: seq<u32>,
    resizeRows: seq<u32>,
    assignmentStart: seq<u32>,
    assignmentRows: seq<u32>)

  /** Tables whose row numbers all fit the `u32` columns that index them. */
  ghost predicate Countable(tables: Tables) {
    && MemoryOperationCount(tables.memoryOperations) <= NO_INDEX
    && |tables.fieldAssignments.field| <= NO_INDEX
    && CallCount(tables.calls) <= NO_INDEX
    && FieldCount(tables.fields) <= NO_INDEX
  }

  function OperationRows(tables: Tables, wanted: MemoryOperationKind, field: nat): seq<u32>
    requires MemoryOperationCount(tables.memoryOperations) <= NO_INDEX
  {
    RowsOperating(tables, wanted, field, MemoryOperationCount(tables.memoryOperations))
  }

  function AssignmentRows(tables: Tables, field: nat): seq<u32>
    requires |tables.fieldAssignments.field| <= NO_INDEX
  {
    RowsAssigning(tables, field, |tables.fieldAssignments.field|)
  }

  /** The range two consecutive starts cut for `field` holds exactly `expected`. */
  ghost predicate Lists(start: seq<u32>, rows: seq<u32>, field: nat, expected: seq<u32>) {
    && field + 1 < |start|
    && start[field] <= start[field + 1] <= |rows|
    && rows[start[field]..start[field + 1]] == expected
  }

  /** The index finds for every field what a direct scan of both tables would. */
  ghost predicate Indexes(index: FieldIndex, tables: Tables)
    requires Countable(tables)
  {
    forall field :: 0 <= field < FieldCount(tables.fields) ==>
      && Lists(index.freeStart, index.freeRows, field, OperationRows(tables, Free, field))
      && Lists(index.resizeStart, index.resizeRows, field, OperationRows(tables, Resize, field))
      && Lists(index.assignmentStart, index.assignmentRows, field, AssignmentRows(tables, field))
  }

  method GroupOperations(tables: Tables, wanted: MemoryOperationKind) returns (start: seq<u32>, rows: seq<u32>)
    requires Countable(tables)
    ensures forall field :: 0 <= field < FieldCount(tables.fields) ==>
              Lists(start, rows, field, OperationRows(tables, wanted, field))
  {
    var operations := MemoryOperationCount(tables.memoryOperations);
    var pairs: seq<(nat, u32)> := [];
    for row := 0 to operations
      invariant pairs == OperatedPairs(tables, wanted, row)
    {
      var field := OperatedField(tables, row, wanted);
      if field.Some? {
        pairs := pairs + [(field.value, row)];
      }
    }
    start, rows := CountingSort(FieldCount(tables.fields), pairs, 0);
    forall field | 0 <= field < FieldCount(tables.fields)
      ensures Lists(start, rows, field, OperationRows(tables, wanted, field))
    {
      assert Holds(pairs, start, rows, field);
      BucketOfOperated(tables, wanted, field, operations);
    }
  }

  method BuildFieldIndex(tables: Tables) returns (index: FieldIndex)
    requires Countable(tables)
    ensures Indexes(index, tables)
  {
    var freeStart, freeRows := GroupOperations(tables, Free);
    var resizeStart, resizeRows := GroupOperations(tables, Resize);
    var fields := FieldCount(tables.fields);
    var assignments := |tables.fieldAssignments.field|;
    var pairs: seq<(nat, u32)> := [];
    for row := 0 to assignments
      invariant pairs == AssignedPairs(tables, row)
    {
      var field := tables.fieldAssignments.field[row];
      if field < fields {
        pairs := pairs + [(field, row)];
      }
    }
    var assignmentStart, assignmentRows := CountingSort(fields, pairs, 0);
    forall field | 0 <= field < fields
      ensures Lists(assignmentStart, assignmentRows, field, AssignmentRows(tables, field))
    {
      assert Holds(pairs, assignmentStart, assignmentRows, field);
      BucketOfAssigned(tables, field, assignments);
    }
    index := FieldIndex(freeStart, freeRows, resizeStart, resizeRows, assignmentStart, assignmentRows);
  }

  // ---- The deinit closure, cached -----------------------------------------------------------

  /** Whether the struct `owner` has a `deinit` from which calls lead to `func`. */
  ghost predicate InClosure(tables: Tables, owner: nat, func: nat) {
    && owner < |tables.structs.deinit|
    && tables.structs.deinit[owner] != NO_INDEX
    && CallReaches(tables, tables.structs.deinit[owner], func)
  }

  /** One stamp buffer reused for the closure of one struct after another. */
  class DeinitClosure {
    var owner: Option<nat>
    var stamp: array<u32>
    var generation: u32

    /** No stamp is newer than the generation, and the newest ones are the owner's closure. */
    ghost predicate Valid(tables: Tables)
      reads this, stamp
    {
      && stamp.Length == FunctionCount(tables.functions)
      && (forall v :: 0 <= v < stamp.Length ==> stamp[v] <= generation)
      && (owner.Some? ==>
            forall v :: 0 <= v < stamp.Length ==> (stamp[v] == generation <==> InClosure(tables, owner.value, v)))
    }

    constructor (tables: Tables)
      ensures Valid(tables) && fresh(stamp) && owner == None && generation == 0
    {
      owner := None;
      stamp := new u32[FunctionCount(tables.functions)](_ => 0);
      generation := 0;
    }

    /** Whether `func` is call-reachable from the `deinit` of `wanted`, whoever was asked about before. */
    method ClosureHolds(tables: Tables, graph: CallGraph, wanted: nat, func: FunctionId) returns (inside: bool)
      requires Valid(tables) && Countable(tables) && GraphOf(graph, tables)
      requires owner == Some(wanted) || generation < NO_INDEX
      modifies this, stamp
      ensures Valid(tables) && stamp == old(stamp) && owner == Some(wanted)
      ensures inside <==> InClosure(tables, wanted, func)
      ensures generation == if old(owner) == Some(wanted) then old(generation) else old(generation) + 1
    {
      if owner != Some(wanted) {
        Refill(tables, graph, wanted);
      }
      inside := func < stamp.Length && stamp[func] == generation;
      if InClosure(tables, wanted, func) {
        var path :| CallChain(tables, path) && path[0] == tables.structs.deinit[wanted] as nat
                    && path[|path| - 1] == func;
        assert func < FunctionCount(tables.functions);
      }
    }

    method Refill(tables: Tables, graph: CallGraph, wanted: nat)
      requires Valid(tables) && Countable(tables) && GraphOf(graph, tables)
      requires generation < NO_INDEX
      modifies this, stamp
      ensures Valid(tables) && stamp == old(stamp) && owner == Some(wanted)
      ensures generation == old(generation) + 1
    {
      owner := Some(wanted);
      generation := generation + 1;
      if wanted < |tables.structs.deinit| && tables.structs.deinit[wanted] != NO_INDEX {
        var root := tables.structs.deinit[wanted];
        ghost var before := stamp[..];
        ghost var _ := MarkReachable(graph, root, stamp, generation);
        CleanSearchIsExact(graph, root, before, stamp[..], generation);
        assert stamp[..] == stamp[..stamp.Length];
        forall v | 0 <= v < stamp.Length
          ensures stamp[v] <= generation && (stamp[v] == generation <==> InClosure(tables, wanted, v))
        {
          assert stamp[..][v] == stamp[v];
          GraphReachesIsCallReaches(graph, tables, root, v);
        }
      }
    }
  }

  /** Any run of questions in any owner order is answered as a fresh search would answer each one. */
  method AnswerAll(tables: Tables, graph: CallGraph, queries: seq<(nat, FunctionId)>) returns (answers: seq<bool>)
    requires Countable(tables) && GraphOf(graph, tables) && |queries| <= NO_INDEX
    ensures |answers| == |queries|
    ensures forall i :: 0 <= i < |queries| ==> (answers[i] <==> InClosure(tables, queries[i].0, queries[i].1))
  {
    var closure := new DeinitClosure(tables);
    answers := [];
    for i := 0 to |queries|
      invariant fresh(closure) && fresh(closure.stamp)
      invariant closure.Valid(tables) && closure.generation <= i
      invariant |answers| == i
      invariant forall j :: 0 <= j < i ==> (answers[j] <==> InClosure(tables, queries[j].0, queries[j].1))
    {
      var answer := closure.ClosureHolds(tables, graph, queries[i].0, queries[i].1);
      answers := answers + [answer];
    }
  }

  // ---- Deciding ------------------------------------------------------------------------------

  /** Whether a type asks, at most `depth` short of eight links down, for an alignment the port drops. */
  function OverAligned(tables: Tables, kind: TypeId, depth: nat): bool
    decreases 8 - depth
  {
    if depth >= 8 then false
    else if kind < |tables.types.flags| && tables.types.flags[kind] / TYPE_FLAG_OVER_ALIGNED % 2 == 1 then true
    else
      match Get(tables.types.element, kind)
      case Some(element) => element != NO_INDEX && element != kind && OverAligned(tables, element, depth + 1)
      case None => false
  }

  /** The type that many element links away, where every link leads on to another type. */
  function ElementAt(types: Types, kind: TypeId, links: nat): Option<TypeId>
    decreases links
  {
    if links == 0 then Some(kind)
    else
      match Get(types.element, kind)
      case Some(element) =>
        if element == NO_INDEX || element == kind then None else ElementAt(types, element, links - 1)
      case None => None
  }

  predicate AsksForAlignment(types: Types, kind: Option<TypeId>) {
    kind.Some? && kind.value < |types.flags| && types.flags[kind.value] / 2 % 2 == 1
  }

  ghost predicate SomeElementAsks(types: Types, kind: TypeId, bound: nat) {
    exists links: nat :: links < bound && AsksForAlignment(types, ElementAt(types, kind, links))
  }

  /** A type is over-aligned exactly when some type within the element links left asks for an alignment. */
  lemma {:induction false} OverAlignedIsSomeElement(tables: Tables, kind: TypeId, depth: nat)
    requires depth <= 8
    ensures OverAligned(tables, kind, depth) <==> SomeElementAsks(tables.types, kind, 8 - depth)
    decreases 8 - depth
  {
    var types := tables.types;
    assert ElementAt(types, kind, 0) == Some(kind);
    if depth < 8 && !AsksForAlignment(types, Some(kind)) {
      ElementsOneOn(types, kind, 8 - depth);
      if ElementAt(types, kind, 1).Some? {
        OverAlignedIsSomeElement(tables, types.element[kind], depth + 1);
      }
    }
  }

  lemma ElementsOneOn(types: Types, kind: TypeId, bound: nat)
    requires bound > 0 && !AsksForAlignment(types, Some(kind))
    ensures SomeElementAsks(types, kind, bound) <==>
              ElementAt(types, kind, 1).Some? && SomeElementAsks(types, ElementAt(types, kind, 1).value, bound - 1)
  {
    assert ElementAt(types, kind, 0) == Some(kind);
    if SomeElementAsks(types, kind, bound) {
      var links: nat :| links < bound && AsksForAlignment(types, ElementAt(types, kind, links));
      assert ElementAt(types, kind, links) == ElementAt(types, types.element[kind], links - 1);
    }
    if ElementAt(types, kind, 1).Some? && SomeElementAsks(types, ElementAt(types, kind, 1).value, bound - 1) {
      var element := ElementAt(types, kind, 1).value;
      var links: nat :| links < bound - 1 && AsksForAlignment(types, ElementAt(types, element, links));
      assert ElementAt(types, kind, links + 1) == ElementAt(types, element, links);
    }
  }

  datatype FreeFacts = FreeFacts(freed: bool, freedInDeinitClosure: bool)

  datatype AssignmentFacts = AssignmentFacts(
    hasAllocation: bool,
    hasParameter: bool,
    hasLiteral: bool,
    hasUnknown: bool,
    allocator: P.AllocatorClass)

  function Only(flag: bool, first: bool, second: bool, third: bool): bool {
    flag && !first && !second && !third
  }

  function Decide(free: FreeFacts, assignment: AssignmentFacts, resized: bool): (OwnershipClass, Confidence) {
    var AssignmentFacts(hasAllocation, hasParameter, hasLiteral, hasUnknown, allocator) := assignment;
    var allocationOnly := Only(hasAllocation, hasParameter, hasLiteral, hasUnknown);
    if hasAllocation && allocator == P.Arena then
      if resized then (Unknown, Low)
      else (InArena, if allocationOnly && !free.freed then High else Medium)
    else if free.freed && allocationOnly && allocator == P.Global then
      (if resized then Grown else Owned, if free.freedInDeinitClosure then High else Medium)
    else if !free.freed && Only(hasLiteral, hasAllocation, hasParameter, hasUnknown) then (Static, High)
    else if !free.freed && Only(hasParameter, hasAllocation, hasLiteral, hasUnknown) then (Borrowed, Medium)
    else (Unknown, Low)
  }

  lemma TakeNext<T>(s: seq<T>, k: nat)
    requires k < |s|
    ensures s[..k + 1][..|s[..k + 1]| - 1] == s[..k]
    ensures s[..k + 1][|s[..k + 1]| - 1] == s[k]
    ensures s[..k + 1] == s[..k] + [s[k]]
  {
  }

  // ---- What a direct scan of the tables says ---------------------------------------------------

  function OperationFunction(tables: Tables, row: nat): FunctionId {
    match Get(tables.memoryOperations.function_, row)
    case Some(func) => func
    case None => NO_INDEX
  }

  function AssignmentFunction(tables: Tables, row: nat): FunctionId {
    match Get(tables.fieldAssignments.function_, row)
    case Some(func) => func
    case None => NO_INDEX
  }

  ghost function FreeEntry(tables: Tables, owner: nat, row: nat): Evidence {
    var func := OperationFunction(tables, row);
    Evidence(if InClosure(tables, owner, func) then FreedInDeinitClosure else FreedOutsideDeinitClosure, func)
  }

  ghost function FreeEvidence(tables: Tables, owner: nat, rows: seq<u32>): seq<Evidence> {
    if rows == [] then []
    else FreeEvidence(tables, owner, rows[..|rows| - 1]) + [FreeEntry(tables, owner, rows[|rows| - 1])]
  }

  ghost predicate SomeFreeInClosure(tables: Tables, owner: nat, rows: seq<u32>) {
    exists row :: row in rows && InClosure(tables, owner, OperationFunction(tables, row))
  }

  function ResizeEvidence(tables: Tables, rows: seq<u32>): seq<Evidence> {
    if rows == [] then []
    else
      ResizeEvidence(tables, rows[..|rows| - 1])
        + [Evidence(ResizedAfterAllocation, OperationFunction(tables, rows[|rows| - 1]))]
  }

  /** The class of the allocator behind an allocating assignment; one that does not resolve conflicts. */
  function AllocatorBehind(tables: Tables, classes: seq<P.AllocatorClass>, row: nat): P.AllocatorClass
    requires |classes| == ParameterCount(tables.parameters)
  {
    match Get(tables.fieldAssignments.memoryOperation, row)
    case Some(operation) =>
      (match Get(tables.memoryOperations.allocator, operation)
       case Some(source) => P.ClassOfSource(tables, classes, source)
       case None => P.Conflicting)
    case None => P.Conflicting
  }

  const NO_FACTS := AssignmentFacts(false, false, false, false, P.Unset)

  function Noted(facts: AssignmentFacts, source: AssignmentSource, allocator: P.AllocatorClass): AssignmentFacts {
    match source
    case FromAllocation => facts.(hasAllocation := true, allocator := P.Join(facts.allocator, allocator))
    case FromParameter => facts.(hasParameter := true)
    case FromLiteral => facts.(hasLiteral := true)
    case FromUnknown => facts.(hasUnknown := true)
  }

  function AssignedFrom(source: AssignmentSource): EvidenceKind {
    match source
    case FromAllocation => AssignedFromAllocation
    case FromParameter => AssignedFromParameter
    case FromLiteral => AssignedFromLiteral
    case FromUnknown => AssignedFromUnknown
  }

  function NotedRow(
    tables: Tables, classes: seq<P.AllocatorClass>, facts: AssignmentFacts, row: nat): AssignmentFacts
    requires |classes| == ParameterCount(tables.parameters)
  {
    match Get(tables.fieldAssignments.source, row)
    case Some(source) => Noted(facts, source, AllocatorBehind(tables, classes, row))
    case None => facts
  }

  function FactsOf(tables: Tables, classes: seq<P.AllocatorClass>, rows: seq<u32>): AssignmentFacts
    requires |classes| == ParameterCount(tables.parameters)
  {
    if rows == [] then NO_FACTS
    else NotedRow(tables, classes, FactsOf(tables, classes, rows[..|rows| - 1]), rows[|rows| - 1])
  }

  function AssignmentEntries(tables: Tables, row: nat): seq<Evidence> {
    match Get(tables.fieldAssignments.source, row)
    case Some(source) => [Evidence(AssignedFrom(source), AssignmentFunction(tables, row))]
    case None => []
  }

  function AssignmentEvidence(tables: Tables, rows: seq<u32>): seq<Evidence> {
    if rows == [] then []
    else AssignmentEvidence(tables, rows[..|rows| - 1]) + AssignmentEntries(tables, rows[|rows| - 1])
  }

  function ClosingEvidence(facts: AssignmentFacts): seq<Evidence> {
    (if facts.hasAllocation then
       [Evidence(match facts.allocator
                 case Arena => AllocatorIsArena
                 case Global => AllocatorIsGlobal
                 case _ => AllocatorIsConflicting, NO_INDEX)]
     else [])
    + (if !facts.hasAllocation && !facts.hasParameter && !facts.hasLiteral && !facts.hasUnknown
       then [Evidence(NoAssignmentsFound, NO_INDEX)] else [])
  }

  datatype Verdict = Verdict(class_: OwnershipClass, confidence: Confidence, evidence: seq<Evidence>)

  function AlignmentEvidence(aligned: bool): seq<Evidence> {
    if aligned then [Evidence(AlignmentCannotBeCarried, NO_INDEX)] else []
  }

  /** The scan of a field whose type refers to memory somewhere else. */
  ghost function ReferenceScan(tables: Tables, classes: seq<P.AllocatorClass>, field: nat, kind: TypeId): Verdict
    requires Countable(tables) && |classes| == ParameterCount(tables.parameters)
    requires field < FieldCount(tables.fields)
  {
    var aligned := OverAligned(tables, kind, 0);
    var owner := tables.fields.owner[field];
    var frees := OperationRows(tables, Free, field);
    var resizes := OperationRows(tables, Resize, field);
    var assignments := AssignmentRows(tables, field);
    var facts := FactsOf(tables, classes, assignments);
    var decision := Decide(FreeFacts(|frees| > 0, SomeFreeInClosure(tables, owner, frees)), facts, |resizes| > 0);
    Verdict(
      if aligned then Unknown else decision.0,
      if aligned then Low else decision.1,
      AlignmentEvidence(aligned)
        + FreeEvidence(tables, owner, frees)
        + ResizeEvidence(tables, resizes)
        + AssignmentEvidence(tables, assignments)
        + ClosingEvidence(facts))
  }

  /** What a scan of both tables in full, for this one field, concludes and in which order it found it. */
  ghost function DirectScan(tables: Tables, classes: seq<P.AllocatorClass>, field: nat): Verdict
    requires Countable(tables) && |classes| == ParameterCount(tables.parameters)
    requires field < FieldCount(tables.fields)
  {
    match Get(tables.fields.fieldType, field)
    case None => Verdict(Unknown, Low, [])
    case Some(kind) =>
      if IsReferenceType(tables.types, kind) then ReferenceScan(tables, classes, field, kind)
      else Verdict(Value, High, [])
  }

  /** The verdict of a direct scan on every field. */
  ghost function Verdicts(tables: Tables, classes: seq<P.AllocatorClass>): (r: seq<Verdict>)
    requires Countable(tables) && |classes| == ParameterCount(tables.parameters)
    ensures |r| == FieldCount(tables.fields)
    ensures forall field :: 0 <= field < |r| ==> r[field] == DirectScan(tables, classes, field)
  {
    seq(FieldCount(tables.fields), (field: nat) requires field < FieldCount(tables.fields) =>
      DirectScan(tables, classes, field))
  }

  /** The evidence of one verdict after another. */
  function AllEvidence(verdicts: seq<Verdict>): seq<Evidence> {
    if verdicts == [] then []
    else AllEvidence(verdicts[..|verdicts| - 1]) + verdicts[|verdicts| - 1].evidence
  }

  lemma AllEvidenceNext(verdicts: seq<Verdict>, field: nat)
    requires field < |verdicts|
    ensures AllEvidence(verdicts[..field + 1]) == AllEvidence(verdicts[..field]) + verdicts[field].evidence
  {
    TakeNext(verdicts, field);
  }

  lemma {:induction false} AllEvidenceGrows(verdicts: seq<Verdict>, bound: nat)
    requires bound <= |verdicts|
    ensures AllEvidence(verdicts[..bound]) <= AllEvidence(verdicts)
    decreases |verdicts| - bound
  {
    if bound == |verdicts| {
      assert verdicts[..bound] == verdicts;
    } else {
      AllEvidenceNext(verdicts, bound);
      AllEvidenceGrows(verdicts, bound + 1);
    }
  }

  // ---- The indexed classifier --------------------------------------------------------------------

  function Kinds(log: seq<Evidence>): seq<EvidenceKind> {
    if log == [] then [] else Kinds(log[..|log| - 1]) + [log[|log| - 1].kind]
  }

  function FunctionsOf(log: seq<Evidence>): seq<FunctionId> {
    if log == [] then [] else FunctionsOf(log[..|log| - 1]) + [log[|log| - 1].func]
  }

  class OwnershipTable {
    var class_: seq<OwnershipClass>
    var confidence: seq<Confidence>
    var evidenceStart: seq<u32>
    var evidenceCount: seq<u32>
    var evidenceKind: seq<EvidenceKind>
    var evidenceFunction: seq<FunctionId>
    // The two evidence columns read together.
    ghost var log: seq<Evidence>

    constructor ()
      ensures class_ == [] && confidence == [] && evidenceStart == [] && evidenceCount == []
      ensures Paired() && log == []
    {
      class_, confidence, evidenceStart, evidenceCount := [], [], [], [];
      evidenceKind, evidenceFunction, log := [], [], [];
    }

    ghost predicate Paired()
      reads this
    {
      && |evidenceKind| == |evidenceFunction| == |log|
      && evidenceKind == Kinds(log) && evidenceFunction == FunctionsOf(log)
    }

    method Record(kind: EvidenceKind, func: FunctionId)
      requires Paired()
      modifies this`evidenceKind, this`evidenceFunction, this`log
      ensures Paired() && log == old(log) + [Evidence(kind, func)]
    {
      assert (log + [Evidence(kind, func)])[..|log|] == log;
      evidenceKind := evidenceKind + [kind];
      evidenceFunction := evidenceFunction + [func];
      log := log + [Evidence(kind, func)];
    }

    /** The rows of the evidence columns that belong to a field. */
    function FieldEvidence(field: FieldId): Range
      reads this
    {
      if field >= |evidenceStart| || field >= |evidenceCount| then Range(0, 0)
      else
        var start: nat := evidenceStart[field];
        Range(start, start + evidenceCount[field])
    }
  }

  /** The rows two consecutive starts cut for a field. */
  function RowsAt(start: seq<u32>, rows: seq<u32>, field: nat): seq<u32>
    requires field + 1 < |start| && start[field] <= start[field + 1] <= |rows|
  {
    rows[start[field]..start[field + 1]]
  }

  method RecordFree(
    tables: Tables, graph: CallGraph, closure: DeinitClosure, owner: StructId, row: u32, ownership: OwnershipTable)
    returns (inside: bool)
    requires Countable(tables) && GraphOf(graph, tables) && closure.Valid(tables) && ownership.Paired()
    requires closure.owner == Some(owner as nat) || closure.generation < NO_INDEX
    modifies closure, closure.stamp, ownership`evidenceKind, ownership`evidenceFunction, ownership`log
    ensures closure.Valid(tables) && closure.stamp == old(closure.stamp) && closure.owner == Some(owner as nat)
    ensures closure.generation
         == if old(closure.owner) == Some(owner as nat) then old(closure.generation) else old(closure.generation) + 1
    ensures ownership.Paired() && ownership.log == old(ownership.log) + [FreeEntry(tables, owner, row)]
    ensures inside <==> InClosure(tables, owner, OperationFunction(tables, row))
  {
    var func := OperationFunction(tables, row);
    inside := closure.ClosureHolds(tables, graph, owner, func);
    ownership.Record(if inside then FreedInDeinitClosure else FreedOutsideDeinitClosure, func);
  }

  method GatherFreeFacts(
    tables: Tables, graph: CallGraph, closure: DeinitClosure, rows: seq<u32>, field: FieldId,
    ownership: OwnershipTable)
    returns (facts: FreeFacts)
    requires Countable(tables) && GraphOf(graph, tables) && field < FieldCount(tables.fields)
    requires closure.Valid(tables) && closure.generation < NO_INDEX && ownership.Paired()
    modifies closure, closure.stamp, ownership`evidenceKind, ownership`evidenceFunction, ownership`log
    ensures closure.Valid(tables) && closure.stamp == old(closure.stamp)
    ensures closure.generation <= old(closure.generation) + 1
    ensures ownership.Paired()
    ensures facts == FreeFacts(|rows| > 0, SomeFreeInClosure(tables, tables.fields.owner[field], rows))
    ensures ownership.log == old(ownership.log) + FreeEvidence(tables, tables.fields.owner[field], rows)
  {
    facts := FreeFacts(false, false);
    if |rows| == 0 {
      return;
    }
    var owner := tables.fields.owner[field];
    ghost var before := ownership.log;
    for i := 0 to |rows|
      invariant closure.Valid(tables) && closure.stamp == old(closure.stamp)
      invariant closure.generation == old(closure.generation)
                || (closure.owner == Some(owner as nat) && closure.generation == old(closure.generation) + 1)
      invariant ownership.Paired()
      invariant ownership.log == before + FreeEvidence(tables, owner, rows[..i])
      invariant facts == FreeFacts(i > 0, SomeFreeInClosure(tables, owner, rows[..i]))
    {
      TakeNext(rows, i);
      var inside := RecordFree(tables, graph, closure, owner, rows[i], ownership);
      facts := FreeFacts(true, facts.freedInDeinitClosure || inside);
    }
    assert rows[..|rows|] == rows;
  }

  method GatherResizeFacts(tables: Tables, rows: seq<u32>, ownership: OwnershipTable) returns (resized: bool)
    requires ownership.Paired()
    modifies ownership`evidenceKind, ownership`evidenceFunction, ownership`log
    ensures ownership.Paired()
    ensures resized <==> |rows| > 0
    ensures ownership.log == old(ownership.log) + ResizeEvidence(tables, rows)
  {
    resized := false;
    for i := 0 to |rows|
      invariant ownership.Paired()
      invariant ownership.log == old(ownership.log) + ResizeEvidence(tables, rows[..i])
      invariant resized <==> i > 0
    {
      TakeNext(rows, i);
      resized := true;
      ownership.Record(ResizedAfterAllocation, OperationFunction(tables, rows[i]));
    }
    assert rows[..|rows|] == rows;
  }

  method GatherAssignmentRows(
    tables: Tables, classes: seq<P.AllocatorClass>, rows: seq<u32>, ownership: OwnershipTable)
    returns (facts: AssignmentFacts)
    requires |classes| == ParameterCount(tables.parameters) && ownership.Paired()
    modifies ownership`evidenceKind, ownership`evidenceFunction, ownership`log
    ensures ownership.Paired()
    ensures facts == FactsOf(tables, classes, rows)
    ensures ownership.log == old(ownership.log) + AssignmentEvidence(tables, rows)
  {
    facts := NO_FACTS;
    for i := 0 to |rows|
      invariant ownership.Paired()
      invariant ownership.log == old(ownership.log) + AssignmentEvidence(tables, rows[..i])
      invariant facts == FactsOf(tables, classes, rows[..i])
    {
      TakeNext(rows, i);
      var source := Get(tables.fieldAssignments.source, rows[i]);
      if source.Some? {
        facts := Noted(facts, source.value, AllocatorBehind(tables, classes, rows[i]));
        ownership.Record(AssignedFrom(source.value), AssignmentFunction(tables, rows[i]));
      }
    }
    assert rows[..|rows|] == rows;
  }

  method GatherAssignmentFacts(
    tables: Tables, classes: seq<P.AllocatorClass>, rows: seq<u32>, ownership: OwnershipTable)
    returns (facts: AssignmentFacts)
    requires |classes| == ParameterCount(tables.parameters) && ownership.Paired()
    modifies ownership`evidenceKind, ownership`evidenceFunction, ownership`log
    ensures ownership.Paired()
    ensures facts == FactsOf(tables, classes, rows)
    ensures ownership.log == old(ownership.log) + AssignmentEvidence(tables, rows) + ClosingEvidence(facts)
  {
    facts := GatherAssignmentRows(tables, classes, rows, ownership);
    if facts.hasAllocation {
      ownership.Record(match facts.allocator
                       case Arena => AllocatorIsArena
                       case Global => AllocatorIsGlobal
                       case _ => AllocatorIsConflicting, NO_INDEX);
    }
    if !facts.hasAllocation && !facts.hasParameter && !facts.hasLiteral && !facts.hasUnknown {
      ownership.Record(NoAssignmentsFound, NO_INDEX);
    }
  }

  lemma AppendedInTurn<T>(before: seq<T>, a: seq<T>, b: seq<T>, c: seq<T>, d: seq<T>, e: seq<T>)
    ensures before + a + b + c + d + e == before + (a + b + c + d + e)
  {
  }

  /** Classifies one field from its indexed rows and records the evidence in the order it is found. */
  method ClassifyField(
    tables: Tables, graph: CallGraph, classes: seq<P.AllocatorClass>, closure: DeinitClosure, index: FieldIndex,
    field: FieldId, ownership: OwnershipTable)
    returns (class_: OwnershipClass, confidence: Confidence)
    requires Countable(tables) && GraphOf(graph, tables) && Indexes(index, tables)
    requires field < FieldCount(tables.fields) && |classes| == ParameterCount(tables.parameters)
    requires closure.Valid(tables) && closure.generation < NO_INDEX && ownership.Paired()
    modifies closure, closure.stamp, ownership`evidenceKind, ownership`evidenceFunction, ownership`log
    ensures closure.Valid(tables) && closure.stamp == old(closure.stamp)
    ensures closure.generation <= old(closure.generation) + 1
    ensures ownership.Paired()
    ensures var verdict := DirectScan(tables, classes, field);
            && class_ == verdict.class_ && confidence == verdict.confidence
            && ownership.log == old(ownership.log) + verdict.evidence
  {
    match Get(tables.fields.fieldType, field)
    case Some(kind) =>
      var reference := ReferenceType(tables.types, kind);
      if reference {
        class_, confidence := ClassifyReference(tables, graph, classes, closure, index, field, kind, ownership);
      } else {
        class_, confidence := Value, High;
      }
    case None =>
      class_, confidence := Unknown, Low;
  }

  lemma IndexFinds(index: FieldIndex, tables: Tables, field: nat)
    requires Countable(tables) && Indexes(index, tables) && field < FieldCount(tables.fields)
    ensures Lists(index.freeStart, index.freeRows, field, OperationRows(tables, Free, field))
    ensures Lists(index.resizeStart, index.resizeRows, field, OperationRows(tables, Resize, field))
    ensures Lists(index.assignmentStart, index.assignmentRows, field, AssignmentRows(tables, field))
  {
  }

  method ClassifyReference(
    tables: Tables, graph: CallGraph, classes: seq<P.AllocatorClass>, closure: DeinitClosure, index: FieldIndex,
    field: FieldId, kind: TypeId, ownership: OwnershipTable)
    returns (class_: OwnershipClass, confidence: Confidence)
    requires Countable(tables) && GraphOf(graph, tables) && Indexes(index, tables)
    requires field < FieldCount(tables.fields) && |classes| == ParameterCount(tables.parameters)
    requires closure.Valid(tables) && closure.generation < NO_INDEX && ownership.Paired()
    modifies closure, closure.stamp, ownership`evidenceKind, ownership`evidenceFunction, ownership`log
    ensures closure.Valid(tables) && closure.stamp == old(closure.stamp)
    ensures closure.generation <= old(closure.generation) + 1
    ensures ownership.Paired()
    ensures var verdict := ReferenceScan(tables, classes, field, kind);
            && class_ == verdict.class_ && confidence == verdict.confidence
            && ownership.log == old(ownership.log) + verdict.evidence
  {
    ghost var before := ownership.log;
    var aligned := OverAligned(tables, kind, 0);
    if aligned {
      ownership.Record(AlignmentCannotBeCarried, NO_INDEX);
    }
    assert ownership.log == before + AlignmentEvidence(aligned);
    IndexFinds(index, tables, field);
    var frees := RowsAt(index.freeStart, index.freeRows, field);
    var resizes := RowsAt(index.resizeStart, index.resizeRows, field);
    var assignments := RowsAt(index.assignmentStart, index.assignmentRows, field);
    var free := GatherFreeFacts(tables, graph, closure, frees, field, ownership);
    var resized := GatherResizeFacts(tables, resizes, ownership);
    var assignment := GatherAssignmentFacts(tables, classes, assignments, ownership);
    AppendedInTurn(
      before, AlignmentEvidence(aligned), FreeEvidence(tables, tables.fields.owner[field], frees),
      ResizeEvidence(tables, resizes), AssignmentEvidence(tables, assignments), ClosingEvidence(assignment));
    if aligned {
      class_, confidence := Unknown, Low;
    } else {
      var decision := Decide(free, assignment, resized);
      class_, confidence := decision.0, decision.1;
    }
  }

  /** One row of the result: a verdict, and where its evidence sits in the log. */
  ghost predicate RowClassified(ownership: OwnershipTable, verdicts: seq<Verdict>, field: nat)
    requires field < |verdicts|
    requires field < |ownership.class_| && field < |ownership.confidence|
    requires field < |ownership.evidenceStart| && field < |ownership.evidenceCount|
    reads ownership`class_, ownership`confidence, ownership`evidenceStart, ownership`evidenceCount
  {
    && ownership.class_[field] == verdicts[field].class_
    && ownership.confidence[field] == verdicts[field].confidence
    && ownership.evidenceStart[field] == |AllEvidence(verdicts[..field])|
    && ownership.evidenceCount[field] == |verdicts[field].evidence|
  }

  /** Every field has the class, confidence and evidence of its verdict, and the evidence tiles the log. */
  ghost predicate Classified(ownership: OwnershipTable, verdicts: seq<Verdict>)
    reads ownership
  {
    && |ownership.class_| == |ownership.confidence| == |verdicts|
    && |ownership.evidenceStart| == |ownership.evidenceCount| == |verdicts|
    && ownership.Paired() && ownership.log == AllEvidence(verdicts)
    && forall field :: 0 <= field < |verdicts| ==> RowClassified(ownership, verdicts, field)
  }

  method ClassifyNext(
    tables: Tables, graph: CallGraph, classes: seq<P.AllocatorClass>, closure: DeinitClosure, index: FieldIndex,
    row: nat, ownership: OwnershipTable, ghost verdicts: seq<Verdict>)
    requires Countable(tables) && GraphOf(graph, tables) && Indexes(index, tables)
    requires row < FieldCount(tables.fields) && |classes| == ParameterCount(tables.parameters)
    requires row < |verdicts| && verdicts[row] == DirectScan(tables, classes, row)
    requires |AllEvidence(verdicts)| <= NO_INDEX
    requires closure.Valid(tables) && closure.generation < NO_INDEX && Classified(ownership, verdicts[..row])
    modifies closure, closure.stamp, ownership
    ensures closure.Valid(tables) && closure.stamp == old(closure.stamp)
    ensures closure.generation <= old(closure.generation) + 1
    ensures Classified(ownership, verdicts[..row + 1])
  {
    AllEvidenceNext(verdicts, row);
    AllEvidenceGrows(verdicts, row + 1);
    var start: u32 := |ownership.evidenceKind|;
    var class_, confidence := ClassifyField(tables, graph, classes, closure, index, row, ownership);
    var count: u32 := |ownership.evidenceKind| - start;
    AppendRow(ownership, class_, confidence, start, count, verdicts, row);
  }

  method AppendRow(
    ownership: OwnershipTable, class_: OwnershipClass, confidence: Confidence, start: u32, count: u32,
    ghost verdicts: seq<Verdict>, ghost row: nat)
    requires row < |verdicts| && |ownership.class_| == |ownership.confidence| == row
    requires |ownership.evidenceStart| == |ownership.evidenceCount| == row
    requires ownership.Paired() && ownership.log == AllEvidence(verdicts[..row + 1])
    requires forall field :: 0 <= field < row ==> RowClassified(ownership, verdicts[..row], field)
    requires class_ == verdicts[row].class_ && confidence == verdicts[row].confidence
    requires start == |AllEvidence(verdicts[..row])| && count == |verdicts[row].evidence|
    modifies ownership`class_, ownership`confidence, ownership`evidenceStart, ownership`evidenceCount
    ensures Classified(ownership, verdicts[..row + 1])
  {
    ownership.class_ := ownership.class_ + [class_];
    ownership.confidence := ownership.confidence + [confidence];
    ownership.evidenceStart := ownership.evidenceStart + [start];
    ownership.evidenceCount := ownership.evidenceCount + [count];
    ghost var done := verdicts[..row + 1];
    forall field | 0 <= field < |done|
      ensures RowClassified(ownership, done, field)
    {
      assert done[..field] == verdicts[..field];
      if field < row {
        assert verdicts[..row][..field] == verdicts[..field];
        assert old(RowClassified(ownership, verdicts[..row], field));
      }
    }
  }

  method ClassifyOwnership(tables: Tables, graph: CallGraph, provenance: P.Provenance)
    returns (ownership: OwnershipTable)
    requires Countable(tables) && GraphOf(graph, tables)
    requires |provenance.parameterClass| == ParameterCount(tables.parameters)
    requires |AllEvidence(Verdicts(tables, provenance.parameterClass))| <= NO_INDEX
    ensures fresh(ownership)
    ensures Classified(ownership, Verdicts(tables, provenance.parameterClass))
  {
    var classes := provenance.parameterClass;
    ghost var verdicts := Verdicts(tables, classes);
    var index := BuildFieldIndex(tables);
    var closure := new DeinitClosure(tables);
    ownership := new OwnershipTable();
    assert verdicts[..0] == [];
    for row := 0 to FieldCount(tables.fields)
      invariant fresh(closure) && fresh(closure.stamp) && fresh(ownership)
      invariant closure.Valid(tables) && closure.generation <= row
      invariant Classified(ownership, verdicts[..row])
    {
      ClassifyNext(tables, graph, classes, closure, index, row, ownership, verdicts);
    }
    assert verdicts[..|verdicts|] == verdicts;
  }
}
