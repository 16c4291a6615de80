/** The whole-program analysis end to end, and what its answers mean for the program. */
module Analysis {
  import opened Basics
  import opened Facts
  import opened CallGraph
  import opened Ownership
  import P = Provenance

  // ---- What the tables say about one field, row by row ---------------------------------------

  ghost predicate Operates(tables: Tables, row: nat, field: nat, wanted: MemoryOperationKind) {
    row < MemoryOperationCount(tables.memoryOperations) && OperatedField(tables, row, wanted) == Some(field)
  }

  /** Assignment `row` sets `field`, and the table records where the value comes from. */
  ghost predicate Assigns(tables: Tables, row: nat, field: nat, source: AssignmentSource) {
    && row < |tables.fieldAssignments.field|
    && tables.fieldAssignments.field[row] == field
    && Get(tables.fieldAssignments.source, row) == Some(source)
  }

  /** The concrete classes of every allocator that reaches a source along any call chain. */
  ghost function ClassesOfSource(tables: Tables, source: AllocatorSourceId): set<P.AllocatorClass> {
    match P.OriginOf(tables, source)
    case Concrete(c) => {c}
    case FromSlot(slot) => P.ReachingClasses(tables, slot)
  }

  ghost function ClassesBehind(tables: Tables, row: nat): set<P.AllocatorClass> {
    match Get(tables.fieldAssignments.memoryOperation, row)
    case Some(operation) =>
      (match Get(tables.memoryOperations.allocator, operation)
       case Some(source) => ClassesOfSource(tables, source)
       case None => {P.Conflicting})
    case None => {P.Conflicting}
  }

  /** The classes of all the allocators that reach any allocation assigned to the field. */
  ghost function AllocatorsOf(tables: Tables, field: nat): set<P.AllocatorClass> {
    set c: P.AllocatorClass | AllocatedFrom(tables, field, c)
  }

  ghost predicate AllocatedFrom(tables: Tables, field: nat, c: P.AllocatorClass) {
    exists row: nat :: Assigns(tables, row, field, FromAllocation) && c in ClassesBehind(tables, row)
  }

  // ---- The facts a scan gathers, read back as statements about the tables ----------------------

  lemma AllocatorBehindIsJoin(tables: Tables, row: nat)
    ensures AllocatorBehind(tables, P.Meaning(tables), row) == P.JoinOf(ClassesBehind(tables, row))
  {
    var operation := Get(tables.fieldAssignments.memoryOperation, row);
    if operation.Some? {
      var source := Get(tables.memoryOperations.allocator, operation.value);
      if source.Some? {
        P.ClassOfSourceReadsItsOrigin(tables, P.Meaning(tables), source.value);
      }
    }
  }

  lemma JoinOfUnion(left: set<P.AllocatorClass>, right: set<P.AllocatorClass>)
    ensures P.JoinOf(left + right) == P.Join(P.JoinOf(left), P.JoinOf(right))
  {
  }

  ghost predicate SomeRowFrom(tables: Tables, rows: seq<u32>, source: AssignmentSource) {
    exists row: nat :: row in rows && Get(tables.fieldAssignments.source, row) == Some(source)
  }

  ghost function AllocatorsIn(tables: Tables, rows: seq<u32>): set<P.AllocatorClass> {
    set c: P.AllocatorClass | SomeRowAllocates(tables, rows, c)
  }

  ghost predicate SomeRowAllocates(tables: Tables, rows: seq<u32>, c: P.AllocatorClass) {
    exists row: nat :: row in rows && AllocatesWith(tables, row, c)
  }

  ghost predicate AllocatesWith(tables: Tables, row: nat, c: P.AllocatorClass) {
    Get(tables.fieldAssignments.source, row) == Some(FromAllocation) && c in ClassesBehind(tables, row)
  }

  lemma SomeRowFromNext(tables: Tables, rows: seq<u32>, source: AssignmentSource)
    requires |rows| > 0
    ensures SomeRowFrom(tables, rows, source) <==>
              SomeRowFrom(tables, rows[..|rows| - 1], source)
              || Get(tables.fieldAssignments.source, rows[|rows| - 1]) == Some(source)
  {
    assert rows == rows[..|rows| - 1] + [rows[|rows| - 1]];
    assert forall row :: row in rows <==> row in rows[..|rows| - 1] || row == rows[|rows| - 1];
  }

  lemma AllocatorsInNext(tables: Tables, rows: seq<u32>)
    requires |rows| > 0
    ensures var last := rows[|rows| - 1];
            AllocatorsIn(tables, rows) == AllocatorsIn(tables, rows[..|rows| - 1])
              + (if Get(tables.fieldAssignments.source, last) == Some(FromAllocation)
                 then ClassesBehind(tables, last) else {})
  {
    var fewer, last := rows[..|rows| - 1], rows[|rows| - 1];
    assert rows == fewer + [last];
    assert forall row :: row in rows <==> row in fewer || row == last;
    forall c
      ensures c in AllocatorsIn(tables, rows) <==> c in AllocatorsIn(tables, fewer) || AllocatesWith(tables, last, c)
    {
      if AllocatesWith(tables, last, c) {
        assert last in rows;
      }
    }
  }

  lemma {:induction false} SourcesReadBack(tables: Tables, rows: seq<u32>)
    ensures var facts := FactsOf(tables, P.Meaning(tables), rows);
            && (facts.hasAllocation <==> SomeRowFrom(tables, rows, FromAllocation))
            && (facts.hasParameter <==> SomeRowFrom(tables, rows, FromParameter))
            && (facts.hasLiteral <==> SomeRowFrom(tables, rows, FromLiteral))
            && (facts.hasUnknown <==> SomeRowFrom(tables, rows, FromUnknown))
  {
    if rows != [] {
      SourcesReadBack(tables, rows[..|rows| - 1]);
      SomeRowFromNext(tables, rows, FromAllocation);
      SomeRowFromNext(tables, rows, FromParameter);
      SomeRowFromNext(tables, rows, FromLiteral);
      SomeRowFromNext(tables, rows, FromUnknown);
    }
  }

  lemma {:induction false} AllocatorReadsBack(tables: Tables, rows: seq<u32>)
    ensures FactsOf(tables, P.Meaning(tables), rows).allocator == P.JoinOf(AllocatorsIn(tables, rows))
  {
    if rows == [] {
      assert AllocatorsIn(tables, rows) == {};
    } else {
      var fewer, last := rows[..|rows| - 1], rows[|rows| - 1];
      AllocatorReadsBack(tables, fewer);
      AllocatorsInNext(tables, rows);
      if Get(tables.fieldAssignments.source, last) == Some(FromAllocation) {
        AllocatorBehindIsJoin(tables, last);
        JoinOfUnion(AllocatorsIn(tables, fewer), ClassesBehind(tables, last));
      } else {
        assert AllocatorsIn(tables, rows) == AllocatorsIn(tables, fewer);
      }
    }
  }

  lemma AssignmentRowsReadBack(tables: Tables, field: nat, source: AssignmentSource)
    requires Countable(tables)
    ensures SomeRowFrom(tables, AssignmentRows(tables, field), source) <==>
              exists row: nat :: Assigns(tables, row, field, source)
  {
    var rows := AssignmentRows(tables, field);
    forall row: nat
      ensures row in rows <==> row < |tables.fieldAssignments.field| && tables.fieldAssignments.field[row] == field
    {
      RowsAssigningAre(tables, field, |tables.fieldAssignments.field|, row);
    }
    if SomeRowFrom(tables, rows, source) {
      var row: nat :| row in rows && Get(tables.fieldAssignments.source, row) == Some(source);
      assert Assigns(tables, row, field, source);
    }
    if exists row: nat :: Assigns(tables, row, field, source) {
      var row: nat :| Assigns(tables, row, field, source);
      assert row in rows;
    }
  }

  lemma AllocatorsReadBack(tables: Tables, field: nat)
    requires Countable(tables)
    ensures AllocatorsIn(tables, AssignmentRows(tables, field)) == AllocatorsOf(tables, field)
  {
    var rows := AssignmentRows(tables, field);
    forall row: nat
      ensures row in rows <==> row < |tables.fieldAssignments.field| && tables.fieldAssignments.field[row] == field
    {
      RowsAssigningAre(tables, field, |tables.fieldAssignments.field|, row);
    }
    forall c
      ensures c in AllocatorsIn(tables, rows) <==> c in AllocatorsOf(tables, field)
    {
      if c in AllocatorsIn(tables, rows) {
        var row: nat :| row in rows && AllocatesWith(tables, row, c);
        assert Assigns(tables, row, field, FromAllocation);
      }
      if c in AllocatorsOf(tables, field) {
        var row: nat :| Assigns(tables, row, field, FromAllocation) && c in ClassesBehind(tables, row);
        assert row in rows && AllocatesWith(tables, row, c);
      }
    }
  }

  lemma OperationRowsReadBack(tables: Tables, field: nat, wanted: MemoryOperationKind)
    requires Countable(tables)
    ensures |OperationRows(tables, wanted, field)| > 0 <==> exists row: nat :: Operates(tables, row, field, wanted)
    ensures forall owner :: SomeFreeInClosure(tables, owner, OperationRows(tables, wanted, field)) <==>
              exists row: nat :: Operates(tables, row, field, wanted)
                            && InClosure(tables, owner, OperationFunction(tables, row))
  {
    var rows := OperationRows(tables, wanted, field);
    forall row: nat
      ensures row in rows <==> Operates(tables, row, field, wanted)
    {
      RowsOperatingAre(tables, wanted, field, MemoryOperationCount(tables.memoryOperations), row);
    }
    if |rows| > 0 {
      assert rows[0] in rows;
    }
  }

  // ---- What each answer means --------------------------------------------------------------------

  /** The field refers to memory elsewhere, and nothing it asks for is lost in the port. */
  ghost predicate Carried(tables: Tables, field: nat) {
    && field < |tables.fields.fieldType|
    && IsReferenceType(tables.types, tables.fields.fieldType[field])
    && !OverAligned(tables, tables.fields.fieldType[field], 0)
  }

  ghost predicate IsOperated(tables: Tables, field: nat, wanted: MemoryOperationKind) {
    exists row: nat :: Operates(tables, row, field, wanted)
  }

  ghost predicate IsAssigned(tables: Tables, field: nat, source: AssignmentSource) {
    exists row: nat :: Assigns(tables, row, field, source)
  }

  /** The field is assigned from `source`, and from nothing else. */
  ghost predicate OnlyAssigned(tables: Tables, field: nat, source: AssignmentSource) {
    && IsAssigned(tables, field, source)
    && forall other :: other != source ==> !IsAssigned(tables, field, other)
  }

  lemma OnlyAssignedSplits(tables: Tables, field: nat)
    ensures var a, p := IsAssigned(tables, field, FromAllocation), IsAssigned(tables, field, FromParameter);
            var l, u := IsAssigned(tables, field, FromLiteral), IsAssigned(tables, field, FromUnknown);
            && (OnlyAssigned(tables, field, FromAllocation) <==> a && !p && !l && !u)
            && (OnlyAssigned(tables, field, FromParameter) <==> !a && p && !l && !u)
            && (OnlyAssigned(tables, field, FromLiteral) <==> !a && !p && l && !u)
  {
  }

  ghost predicate FreedFromDeinit(tables: Tables, field: nat)
    requires field < FieldCount(tables.fields)
  {
    exists row: nat :: Operates(tables, row, field, Free)
                  && InClosure(tables, tables.fields.owner[field], OperationFunction(tables, row))
  }

  lemma ClassesBehindAreReal(tables: Tables, row: nat)
    ensures P.Unset !in ClassesBehind(tables, row)
  {
    var operation := Get(tables.fieldAssignments.memoryOperation, row);
    if operation.Some? {
      var source := Get(tables.memoryOperations.allocator, operation.value);
      if source.Some? && P.OriginOf(tables, source.value).FromSlot? {
        var slot := P.OriginOf(tables, source.value).slot;
        if P.Reaches(tables, P.Unset, slot) {
          var path :| P.FlowPath(tables, path, P.Unset, slot);
          P.PathsCarryRealClasses(tables, path, P.Unset, slot);
        }
      }
    }
  }

  lemma AllocatorsCarryRealClasses(tables: Tables, field: nat)
    ensures P.Unset !in AllocatorsOf(tables, field)
  {
    if P.Unset in AllocatorsOf(tables, field) {
      var row: nat :| Assigns(tables, row, field, FromAllocation) && P.Unset in ClassesBehind(tables, row);
      ClassesBehindAreReal(tables, row);
    }
  }

  lemma SingleClass(classes: set<P.AllocatorClass>, c: P.AllocatorClass)
    requires P.Unset !in classes && (c == P.Global || c == P.Arena)
    ensures P.JoinOf(classes) == c <==> classes == {c}
  {
    if P.JoinOf(classes) == c {
      assert forall other :: other in classes ==> other == c;
    }
  }

  /** The decision on a carried field, in terms of what the tables record about it. */
  lemma CarriedScan(tables: Tables, field: nat)
    requires Countable(tables) && field < FieldCount(tables.fields) && Carried(tables, field)
    ensures var verdict := DirectScan(tables, P.Meaning(tables), field);
            exists free: FreeFacts, facts: AssignmentFacts ::
              && Decide(free, facts, IsOperated(tables, field, Resize)) == (verdict.class_, verdict.confidence)
              && (free.freed <==> IsOperated(tables, field, Free))
              && (free.freedInDeinitClosure <==> FreedFromDeinit(tables, field))
              && (facts.hasAllocation <==> IsAssigned(tables, field, FromAllocation))
              && (facts.hasParameter <==> IsAssigned(tables, field, FromParameter))
              && (facts.hasLiteral <==> IsAssigned(tables, field, FromLiteral))
              && (facts.hasUnknown <==> IsAssigned(tables, field, FromUnknown))
              && facts.allocator == P.JoinOf(AllocatorsOf(tables, field))
  {
    var rows := AssignmentRows(tables, field);
    var frees := OperationRows(tables, Free, field);
    SourcesReadBack(tables, rows);
    AllocatorReadsBack(tables, rows);
    AssignmentRowsReadBack(tables, field, FromAllocation);
    AssignmentRowsReadBack(tables, field, FromParameter);
    AssignmentRowsReadBack(tables, field, FromLiteral);
    AssignmentRowsReadBack(tables, field, FromUnknown);
    AllocatorsReadBack(tables, field);
    OperationRowsReadBack(tables, field, Free);
    OperationRowsReadBack(tables, field, Resize);
    var free := FreeFacts(|frees| > 0, SomeFreeInClosure(tables, tables.fields.owner[field], frees));
    var facts := FactsOf(tables, P.Meaning(tables), rows);
    var verdict := DirectScan(tables, P.Meaning(tables), field);
    assert Decide(free, facts, IsOperated(tables, field, Resize)) == (verdict.class_, verdict.confidence);
  }

  lemma UncarriedScan(tables: Tables, field: nat)
    requires Countable(tables) && field < FieldCount(tables.fields) && !Carried(tables, field)
    ensures var class_ := DirectScan(tables, P.Meaning(tables), field).class_;
            class_ == Value || class_ == Unknown
  {
  }

  /** Owned and Grown mean: freed somewhere, only ever allocated, and every allocator that can reach it is Global. */
  lemma OwnedMeans(tables: Tables, field: nat)
    requires Countable(tables) && field < FieldCount(tables.fields)
    ensures var verdict := DirectScan(tables, P.Meaning(tables), field);
            && (verdict.class_ == Owned || verdict.class_ == Grown <==>
                  && Carried(tables, field)
                  && IsOperated(tables, field, Free)
                  && OnlyAssigned(tables, field, FromAllocation)
                  && AllocatorsOf(tables, field) == {P.Global})
            && (verdict.class_ == Owned || verdict.class_ == Grown ==>
                  && (verdict.class_ == Grown <==> IsOperated(tables, field, Resize))
                  && verdict.confidence == if FreedFromDeinit(tables, field) then High else Medium)
  {
    if Carried(tables, field) {
      CarriedScan(tables, field);
      AllocatorsCarryRealClasses(tables, field);
      SingleClass(AllocatorsOf(tables, field), P.Global);
      OnlyAssignedSplits(tables, field);
    } else {
      UncarriedScan(tables, field);
    }
  }

  /** An arena field is allocated from arenas alone and never changes length. */
  lemma ArenaMeans(tables: Tables, field: nat)
    requires Countable(tables) && field < FieldCount(tables.fields)
    ensures var verdict := DirectScan(tables, P.Meaning(tables), field);
            && (verdict.class_ == InArena <==>
                  && Carried(tables, field)
                  && IsAssigned(tables, field, FromAllocation)
                  && AllocatorsOf(tables, field) == {P.Arena}
                  && !IsOperated(tables, field, Resize))
            && (verdict.class_ == InArena ==>
                  verdict.confidence ==
                    if OnlyAssigned(tables, field, FromAllocation) && !IsOperated(tables, field, Free) then High
                    else Medium)
  {
    if Carried(tables, field) {
      CarriedScan(tables, field);
      OnlyAssignedSplits(tables, field);
      AllocatorsCarryRealClasses(tables, field);
      SingleClass(AllocatorsOf(tables, field), P.Arena);
    } else {
      UncarriedScan(tables, field);
    }
  }

  /** Nothing frees the field, and it is set one way only. */
  ghost predicate IsOnlySet(tables: Tables, field: nat, source: AssignmentSource) {
    Carried(tables, field) && !IsOperated(tables, field, Free) && OnlyAssigned(tables, field, source)
  }

  /** A field nothing frees is static or borrowed exactly when it is only ever set that one way. */
  lemma StaticAndBorrowedMean(tables: Tables, field: nat)
    requires Countable(tables) && field < FieldCount(tables.fields)
    ensures var verdict := DirectScan(tables, P.Meaning(tables), field);
            && (verdict.class_ == Static <==> IsOnlySet(tables, field, FromLiteral))
            && (verdict.class_ == Static ==> verdict.confidence == High)
            && (verdict.class_ == Borrowed <==> IsOnlySet(tables, field, FromParameter))
            && (verdict.class_ == Borrowed ==> verdict.confidence == Medium)
  {
    if Carried(tables, field) {
      CarriedScan(tables, field);
      OnlyAssignedSplits(tables, field);
    } else {
      UncarriedScan(tables, field);
    }
  }

  // ---- What is left over -------------------------------------------------------------------------

  ghost predicate IsOwned(tables: Tables, field: nat) {
    && Carried(tables, field) && IsOperated(tables, field, Free)
    && OnlyAssigned(tables, field, FromAllocation) && AllocatorsOf(tables, field) == {P.Global}
  }

  ghost predicate IsInArena(tables: Tables, field: nat) {
    && Carried(tables, field) && !IsOperated(tables, field, Resize)
    && IsAssigned(tables, field, FromAllocation) && AllocatorsOf(tables, field) == {P.Arena}
  }

  /** The field has a type, and it is one that holds everything it is. */
  ghost predicate IsPlain(tables: Tables, field: nat) {
    field < |tables.fields.fieldType| && !SomeOptionPoints(tables.types, tables.fields.fieldType[field], 8)
  }

  /** The field refers to memory elsewhere and asks for an alignment the port drops. */
  ghost predicate IsOverAligned(tables: Tables, field: nat) {
    && field < |tables.fields.fieldType|
    && SomeOptionPoints(tables.types, tables.fields.fieldType[field], 8)
    && SomeElementAsks(tables.types, tables.fields.fieldType[field], 8)
  }

  lemma CarriedMeans(tables: Tables, field: nat)
    ensures Carried(tables, field)
            <==> field < |tables.fields.fieldType| && !IsPlain(tables, field) && !IsOverAligned(tables, field)
  {
    if field < |tables.fields.fieldType| {
      ReferencesAreBehindOptions(tables.types, tables.fields.fieldType[field], 8);
      OverAlignedIsSomeElement(tables, tables.fields.fieldType[field], 0);
    }
  }

  /** A field is a value exactly when its type refers to nothing elsewhere. */
  lemma ValueMeans(tables: Tables, field: nat)
    requires Countable(tables) && field < FieldCount(tables.fields)
    ensures var verdict := DirectScan(tables, P.Meaning(tables), field);
            && (verdict.class_ == Value <==> IsPlain(tables, field))
            && (verdict.class_ == Value ==> verdict.confidence == High)
  {
    CarriedMeans(tables, field);
    if Carried(tables, field) {
      CarriedScan(tables, field);
    } else if field < |tables.fields.fieldType| {
      ReferencesAreBehindOptions(tables.types, tables.fields.fieldType[field], 8);
    }
  }

  /**
   * A field is unknown exactly when it has no type, or refers to memory and asks for an alignment the port drops, or
   * is carried and none of owned, in an arena, only set from literals, and only set from parameters.
   */
  lemma UnknownMeans(tables: Tables, field: nat)
    requires Countable(tables) && field < FieldCount(tables.fields)
    ensures var verdict := DirectScan(tables, P.Meaning(tables), field);
            && (verdict.class_ == Unknown <==>
                  || field >= |tables.fields.fieldType|
                  || IsOverAligned(tables, field)
                  || (Carried(tables, field) && !IsOwned(tables, field) && !IsInArena(tables, field)
                      && !IsOnlySet(tables, field, FromLiteral) && !IsOnlySet(tables, field, FromParameter)))
            && (verdict.class_ == Unknown ==> verdict.confidence == Low)
  {
    OwnedMeans(tables, field);
    ArenaMeans(tables, field);
    StaticAndBorrowedMean(tables, field);
    ValueMeans(tables, field);
    CarriedMeans(tables, field);
    if field < |tables.fields.fieldType| {
      ReferencesAreBehindOptions(tables.types, tables.fields.fieldType[field], 8);
    }
    UnknownIsLow(tables, field);
  }

  lemma UnknownIsLow(tables: Tables, field: nat)
    requires Countable(tables) && field < FieldCount(tables.fields)
    ensures var verdict := DirectScan(tables, P.Meaning(tables), field);
            verdict.class_ == Unknown ==> verdict.confidence == Low
  {
    if Carried(tables, field) {
      CarriedScan(tables, field);
    }
  }

  // ---- The pipeline ---------------------------------------------------------------------------------

  datatype Analysis = Analysis(graph: CallGraph, provenance: P.Provenance, ownership: OwnershipTable)

  method Analyze(tables: Tables) returns (analysis: Analysis)
    requires Countable(tables)
    requires |tables.callArguments.call| <= NO_INDEX && ParameterCount(tables.parameters) <= 0x1_0000_0000
    requires |AllEvidence(Verdicts(tables, P.Meaning(tables)))| <= NO_INDEX
    ensures GraphOf(analysis.graph, tables)
    ensures analysis.provenance.parameterClass == P.Meaning(tables)
    ensures Classified(analysis.ownership, Verdicts(tables, P.Meaning(tables)))
  {
    var graph := BuildCallGraph(tables);
    var provenance := P.ResolveAllocatorProvenance(tables);
    var ownership := ClassifyOwnership(tables, graph, provenance);
    analysis := Analysis(graph, provenance, ownership);
  }

  /** The evidence rows of a field are the evidence of its verdict, in that order. */
  lemma FieldEvidenceIsItsOwn(ownership: OwnershipTable, verdicts: seq<Verdict>, field: FieldId)
    requires field < |verdicts| && Classified(ownership, verdicts)
    ensures var range := ownership.FieldEvidence(field);
            && range.start <= range.end <= |ownership.log|
            && ownership.log[range.start..range.end] == verdicts[field].evidence
  {
    assert RowClassified(ownership, verdicts, field);
    AllEvidenceNext(verdicts, field);
    AllEvidenceGrows(verdicts, field + 1);
    SliceOfPrefix(ownership.log, AllEvidence(verdicts[..field]), verdicts[field].evidence);
  }

  lemma SliceOfPrefix<T>(whole: seq<T>, before: seq<T>, own: seq<T>)
    requires before + own <= whole
    ensures whole[|before|..|before| + |own|] == own
  {
    assert whole[..|before + own|] == before + own;
  }

  /** The evidence of `field` ends where the next field's starts, or with the log. */
  ghost predicate MeetsNext(ownership: OwnershipTable, field: nat)
    requires field < |ownership.evidenceStart| == |ownership.evidenceCount|
    reads ownership
  {
    (ownership.evidenceStart[field] as int) + ownership.evidenceCount[field]
    == if field + 1 < |ownership.evidenceStart| then ownership.evidenceStart[field + 1] as int
       else |ownership.evidenceKind|
  }

  /** The evidence ranges start at zero, follow one another without a gap, and end with the log. */
  lemma EvidenceTiles(ownership: OwnershipTable, verdicts: seq<Verdict>)
    requires Classified(ownership, verdicts)
    ensures |verdicts| > 0 ==> ownership.evidenceStart[0] == 0
    ensures forall field :: 0 <= field < |verdicts| ==> MeetsNext(ownership, field)
  {
    forall field | 0 <= field < |verdicts|
      ensures MeetsNext(ownership, field)
    {
      assert RowClassified(ownership, verdicts, field);
      AllEvidenceNext(verdicts, field);
      if field + 1 < |verdicts| {
        assert RowClassified(ownership, verdicts, field + 1);
      } else {
        assert verdicts[..field + 1] == verdicts;
      }
    }
    if |verdicts| > 0 {
      assert RowClassified(ownership, verdicts, 0);
    }
  }
}
