/** What each entry of evidence about a field is there for. */
module Reasons {
  import opened Basics
  import opened Facts
  import opened Ownership
  import opened Analysis
  import P = Provenance

  // ---- Rows, over the columns ------------------------------------------------------------------------

  /** An operation is on a field where it is of that kind, its place is a parameter's field, and the field exists. */
  lemma OperatesMeans(tables: Tables, row: nat, field: nat, wanted: MemoryOperationKind)
    ensures var operations := tables.memoryOperations;
            Operates(tables, row, field, wanted)
            <==> && row < |operations.function_| && row < |operations.kind| && row < |operations.place|
                 && row < |operations.placeField|
                 && operations.kind[row] == wanted && operations.place[row].FieldOfParameter?
                 && operations.placeField[row] == field && field < |tables.fields.owner|
  {
  }

  // ---- Reasons, over the tables -------------------------------------------------------------------

  /** The function a row belongs to, the absent one where the column is short. */
  predicate IsRunBy(column: seq<FunctionId>, row: nat, func: FunctionId) {
    if row < |column| then column[row] == func else func == NO_INDEX
  }

  ghost predicate OperatesIn(tables: Tables, field: nat, wanted: MemoryOperationKind, func: FunctionId) {
    exists row: nat :: Operates(tables, row, field, wanted) && IsRunBy(tables.memoryOperations.function_, row, func)
  }

  ghost predicate AssignsIn(tables: Tables, field: nat, source: AssignmentSource, func: FunctionId) {
    exists row: nat :: Assigns(tables, row, field, source) && IsRunBy(tables.fieldAssignments.function_, row, func)
  }

  /** What has to be so for an entry to be recorded about a field that refers to memory elsewhere. */
  ghost predicate IsReason(tables: Tables, field: nat, entry: Evidence)
    requires field < FieldCount(tables.fields)
  {
    var func := entry.func;
    match entry.kind
    case FreedInDeinitClosure =>
      OperatesIn(tables, field, Free, func) && InClosure(tables, tables.fields.owner[field], func)
    case FreedOutsideDeinitClosure =>
      OperatesIn(tables, field, Free, func) && !InClosure(tables, tables.fields.owner[field], func)
    case ResizedAfterAllocation => OperatesIn(tables, field, Resize, func)
    case AssignedFromAllocation => AssignsIn(tables, field, FromAllocation, func)
    case AssignedFromParameter => AssignsIn(tables, field, FromParameter, func)
    case AssignedFromLiteral => AssignsIn(tables, field, FromLiteral, func)
    case AssignedFromUnknown => AssignsIn(tables, field, FromUnknown, func)
    case AllocatorIsGlobal =>
      func == NO_INDEX && IsAssigned(tables, field, FromAllocation) && AllocatorsOf(tables, field) == {P.Global}
    case AllocatorIsArena =>
      func == NO_INDEX && IsAssigned(tables, field, FromAllocation) && AllocatorsOf(tables, field) == {P.Arena}
    case AllocatorIsConflicting =>
      && func == NO_INDEX && IsAssigned(tables, field, FromAllocation)
      && AllocatorsOf(tables, field) != {P.Global} && AllocatorsOf(tables, field) != {P.Arena}
    case NoAssignmentsFound => func == NO_INDEX && forall source :: !IsAssigned(tables, field, source)
    case AlignmentCannotBeCarried => func == NO_INDEX && IsOverAligned(tables, field)
  }

  // ---- The rows behind the entries ----------------------------------------------------------------

  lemma {:induction false} FreeEntryIsThere(tables: Tables, owner: nat, rows: seq<u32>, entry: Evidence)
    ensures entry in FreeEvidence(tables, owner, rows)
            <==> exists row :: row in rows && FreeEntry(tables, owner, row) == entry
  {
    if rows != [] {
      FreeEntryIsThere(tables, owner, rows[..|rows| - 1], entry);
      assert rows == rows[..|rows| - 1] + [rows[|rows| - 1]];
    }
  }

  predicate IsResizeEntry(tables: Tables, row: nat, entry: Evidence) {
    entry == Evidence(ResizedAfterAllocation, OperationFunction(tables, row))
  }

  lemma {:induction false} ResizeEntryIsThere(tables: Tables, rows: seq<u32>, entry: Evidence)
    ensures entry in ResizeEvidence(tables, rows) <==> exists row :: row in rows && IsResizeEntry(tables, row, entry)
  {
    if rows != [] {
      var fewer, last := rows[..|rows| - 1], rows[|rows| - 1];
      ResizeEntryIsThere(tables, fewer, entry);
      assert forall row :: row in rows <==> row in fewer || row == last;
      assert ResizeEvidence(tables, rows)
          == ResizeEvidence(tables, fewer) + [Evidence(ResizedAfterAllocation, OperationFunction(tables, last))];
      assert IsResizeEntry(tables, last, entry) ==> last in rows;
    }
  }

  lemma {:induction false} AssignmentEntryIsThere(tables: Tables, rows: seq<u32>, entry: Evidence)
    ensures entry in AssignmentEvidence(tables, rows)
            <==> exists row :: row in rows && entry in AssignmentEntries(tables, row)
  {
    if rows != [] {
      AssignmentEntryIsThere(tables, rows[..|rows| - 1], entry);
      assert rows == rows[..|rows| - 1] + [rows[|rows| - 1]];
    }
  }

  lemma OperationRowsAre(tables: Tables, wanted: MemoryOperationKind, field: nat)
    requires Countable(tables)
    ensures forall row: nat :: row in OperationRows(tables, wanted, field) <==> Operates(tables, row, field, wanted)
  {
    forall row: nat
      ensures row in OperationRows(tables, wanted, field) <==> Operates(tables, row, field, wanted)
    {
      RowsOperatingAre(tables, wanted, field, MemoryOperationCount(tables.memoryOperations), row);
    }
  }

  predicate IsFreeEntry(entry: Evidence) {
    entry.kind == FreedInDeinitClosure || entry.kind == FreedOutsideDeinitClosure
  }

  lemma FreeEntryMeans(tables: Tables, field: nat, entry: Evidence)
    requires Countable(tables) && field < FieldCount(tables.fields)
    ensures entry in FreeEvidence(tables, tables.fields.owner[field], OperationRows(tables, Free, field))
            <==> IsFreeEntry(entry) && IsReason(tables, field, entry)
  {
    var rows, owner := OperationRows(tables, Free, field), tables.fields.owner[field];
    FreeEntryIsThere(tables, owner, rows, entry);
    OperationRowsAre(tables, Free, field);
    if exists row :: row in rows && FreeEntry(tables, owner, row) == entry {
      var row :| row in rows && FreeEntry(tables, owner, row) == entry;
      assert Operates(tables, row, field, Free) && IsRunBy(tables.memoryOperations.function_, row, entry.func);
    }
    if IsFreeEntry(entry) && IsReason(tables, field, entry) {
      var row: nat :| Operates(tables, row, field, Free)
                      && IsRunBy(tables.memoryOperations.function_, row, entry.func);
      assert row in rows && FreeEntry(tables, owner, row) == entry;
    }
  }

  lemma ResizeEntryMeans(tables: Tables, field: nat, entry: Evidence)
    requires Countable(tables) && field < FieldCount(tables.fields)
    ensures entry in ResizeEvidence(tables, OperationRows(tables, Resize, field))
            <==> entry.kind == ResizedAfterAllocation && IsReason(tables, field, entry)
  {
    var rows := OperationRows(tables, Resize, field);
    ResizeEntryIsThere(tables, rows, entry);
    OperationRowsAre(tables, Resize, field);
    if exists row :: row in rows && IsResizeEntry(tables, row, entry) {
      var row :| row in rows && IsResizeEntry(tables, row, entry);
      assert Operates(tables, row, field, Resize) && IsRunBy(tables.memoryOperations.function_, row, entry.func);
    }
    if entry.kind == ResizedAfterAllocation && IsReason(tables, field, entry) {
      var row: nat :| Operates(tables, row, field, Resize)
                      && IsRunBy(tables.memoryOperations.function_, row, entry.func);
      assert row in rows && IsResizeEntry(tables, row, entry);
    }
  }

  predicate IsAssignmentEntry(entry: Evidence) {
    || entry.kind == AssignedFromAllocation || entry.kind == AssignedFromParameter
    || entry.kind == AssignedFromLiteral || entry.kind == AssignedFromUnknown
  }

  function SourceBehind(kind: EvidenceKind): AssignmentSource {
    match kind
    case AssignedFromAllocation => FromAllocation
    case AssignedFromParameter => FromParameter
    case AssignedFromLiteral => FromLiteral
    case _ => FromUnknown
  }

  lemma AssignmentReason(tables: Tables, field: nat, entry: Evidence)
    requires field < FieldCount(tables.fields) && IsAssignmentEntry(entry)
    ensures IsReason(tables, field, entry) <==> AssignsIn(tables, field, SourceBehind(entry.kind), entry.func)
  {
  }

  lemma AssignmentRowsAre(tables: Tables, field: nat)
    requires Countable(tables)
    ensures forall row: nat :: row in AssignmentRows(tables, field)
              <==> row < |tables.fieldAssignments.field| && tables.fieldAssignments.field[row] == field
  {
    forall row: nat
      ensures row in AssignmentRows(tables, field)
              <==> row < |tables.fieldAssignments.field| && tables.fieldAssignments.field[row] == field
    {
      RowsAssigningAre(tables, field, |tables.fieldAssignments.field|, row);
    }
  }

  /** The entries one assignment row gives, by what it records. */
  lemma RowEntries(tables: Tables, field: nat, row: nat, entry: Evidence)
    requires row < |tables.fieldAssignments.field| && tables.fieldAssignments.field[row] == field
    ensures entry in AssignmentEntries(tables, row)
            <==> && IsAssignmentEntry(entry) && Assigns(tables, row, field, SourceBehind(entry.kind))
                 && IsRunBy(tables.fieldAssignments.function_, row, entry.func)
  {
  }

  lemma AssignmentEntryMeans(tables: Tables, field: nat, entry: Evidence)
    requires Countable(tables) && field < FieldCount(tables.fields)
    ensures entry in AssignmentEvidence(tables, AssignmentRows(tables, field))
            <==> IsAssignmentEntry(entry) && IsReason(tables, field, entry)
  {
    var rows := AssignmentRows(tables, field);
    AssignmentEntryIsThere(tables, rows, entry);
    AssignmentRowsAre(tables, field);
    if entry in AssignmentEvidence(tables, rows) {
      var row :| row in rows && entry in AssignmentEntries(tables, row);
      RowEntries(tables, field, row, entry);
      AssignmentReason(tables, field, entry);
    } else if IsAssignmentEntry(entry) && IsReason(tables, field, entry) {
      AssignmentReason(tables, field, entry);
      var row: nat :| Assigns(tables, row, field, SourceBehind(entry.kind))
                      && IsRunBy(tables.fieldAssignments.function_, row, entry.func);
      RowEntries(tables, field, row, entry);
    }
  }

  predicate IsClosingEntry(entry: Evidence) {
    || entry.kind == AllocatorIsGlobal || entry.kind == AllocatorIsArena || entry.kind == AllocatorIsConflicting
    || entry.kind == NoAssignmentsFound
  }

  /** What has to have been gathered for an entry to close the evidence. */
  predicate Closes(facts: AssignmentFacts, entry: Evidence) {
    && entry.func == NO_INDEX
    && match entry.kind
       case AllocatorIsGlobal => facts.hasAllocation && facts.allocator == P.Global
       case AllocatorIsArena => facts.hasAllocation && facts.allocator == P.Arena
       case AllocatorIsConflicting =>
         facts.hasAllocation && facts.allocator != P.Global && facts.allocator != P.Arena
       case NoAssignmentsFound =>
         !facts.hasAllocation && !facts.hasParameter && !facts.hasLiteral && !facts.hasUnknown
       case _ => false
  }

  lemma ClosingEntriesClose(facts: AssignmentFacts, entry: Evidence)
    ensures entry in ClosingEvidence(facts) <==> Closes(facts, entry)
  {
  }

  lemma ClosingEntryMeans(tables: Tables, field: nat, entry: Evidence)
    requires Countable(tables) && field < FieldCount(tables.fields)
    ensures entry in ClosingEvidence(FactsOf(tables, P.Meaning(tables), AssignmentRows(tables, field)))
            <==> IsClosingEntry(entry) && IsReason(tables, field, entry)
  {
    var facts := FactsOf(tables, P.Meaning(tables), AssignmentRows(tables, field));
    ClosingEntriesClose(facts, entry);
    FactsReadBack(tables, field);
    ClosingReason(tables, field, facts, entry);
  }

  lemma ClosingReason(tables: Tables, field: nat, facts: AssignmentFacts, entry: Evidence)
    requires field < FieldCount(tables.fields) && facts.allocator == P.JoinOf(AllocatorsOf(tables, field))
    requires facts.hasAllocation <==> IsAssigned(tables, field, FromAllocation)
    requires facts.hasParameter <==> IsAssigned(tables, field, FromParameter)
    requires facts.hasLiteral <==> IsAssigned(tables, field, FromLiteral)
    requires facts.hasUnknown <==> IsAssigned(tables, field, FromUnknown)
    ensures Closes(facts, entry) <==> IsClosingEntry(entry) && IsReason(tables, field, entry)
  {
    AllocatorsCarryRealClasses(tables, field);
    SingleClass(AllocatorsOf(tables, field), P.Global);
    SingleClass(AllocatorsOf(tables, field), P.Arena);
    NeverAssignedMeans(tables, field);
  }

  lemma NeverAssignedMeans(tables: Tables, field: nat)
    ensures (forall source :: !IsAssigned(tables, field, source))
            <==> && !IsAssigned(tables, field, FromAllocation) && !IsAssigned(tables, field, FromParameter)
                 && !IsAssigned(tables, field, FromLiteral) && !IsAssigned(tables, field, FromUnknown)
  {
    if exists source :: IsAssigned(tables, field, source) {
      var source :| IsAssigned(tables, field, source);
      assert source.FromAllocation? || source.FromParameter? || source.FromLiteral? || source.FromUnknown?;
    }
  }

  lemma FactsReadBack(tables: Tables, field: nat)
    requires Countable(tables)
    ensures var facts := FactsOf(tables, P.Meaning(tables), AssignmentRows(tables, field));
            && (facts.hasAllocation <==> IsAssigned(tables, field, FromAllocation))
            && (facts.hasParameter <==> IsAssigned(tables, field, FromParameter))
            && (facts.hasLiteral <==> IsAssigned(tables, field, FromLiteral))
            && (facts.hasUnknown <==> IsAssigned(tables, field, FromUnknown))
            && facts.allocator == P.JoinOf(AllocatorsOf(tables, field))
  {
    SourcesReadBack(tables, AssignmentRows(tables, field));
    AllocatorReadsBack(tables, AssignmentRows(tables, field));
    AllocatorsReadBack(tables, field);
    AssignmentRowsReadBack(tables, field, FromAllocation);
    AssignmentRowsReadBack(tables, field, FromParameter);
    AssignmentRowsReadBack(tables, field, FromLiteral);
    AssignmentRowsReadBack(tables, field, FromUnknown);
  }

  // ---- What the evidence of a field says ----------------------------------------------------------

  /** An entry is recorded about a field exactly when its type refers to memory elsewhere and there is reason for it. */
  lemma EvidenceMeans(tables: Tables, field: nat, entry: Evidence)
    requires Countable(tables) && field < FieldCount(tables.fields)
    ensures entry in DirectScan(tables, P.Meaning(tables), field).evidence
            <==> field < |tables.fields.fieldType| && !IsPlain(tables, field) && IsReason(tables, field, entry)
  {
    if field < |tables.fields.fieldType| {
      var kind := tables.fields.fieldType[field];
      Facts.ReferencesAreBehindOptions(tables.types, kind, 8);
      if IsReferenceType(tables.types, kind) {
        ReferenceEvidenceMeans(tables, field, kind, entry);
      }
    }
  }

  lemma ReferenceEvidenceMeans(tables: Tables, field: nat, kind: TypeId, entry: Evidence)
    requires Countable(tables) && field < FieldCount(tables.fields)
    requires Get(tables.fields.fieldType, field) == Some(kind) && IsReferenceType(tables.types, kind)
    ensures entry in ReferenceScan(tables, P.Meaning(tables), field, kind).evidence <==> IsReason(tables, field, entry)
  {
    AlignmentEntryMeans(tables, field, kind, entry);
    FreeEntryMeans(tables, field, entry);
    ResizeEntryMeans(tables, field, entry);
    AssignmentEntryMeans(tables, field, entry);
    ClosingEntryMeans(tables, field, entry);
    EvidenceParts(tables, field, kind, entry);
    EntryKinds(entry);
  }

  lemma AlignmentEntryMeans(tables: Tables, field: nat, kind: TypeId, entry: Evidence)
    requires field < FieldCount(tables.fields)
    requires Get(tables.fields.fieldType, field) == Some(kind) && IsReferenceType(tables.types, kind)
    ensures entry in AlignmentEvidence(OverAligned(tables, kind, 0))
            <==> entry.kind == AlignmentCannotBeCarried && IsReason(tables, field, entry)
  {
    Facts.ReferencesAreBehindOptions(tables.types, kind, 8);
    OverAlignedIsSomeElement(tables, kind, 0);
  }

  lemma EntryKinds(entry: Evidence)
    ensures || entry.kind == AlignmentCannotBeCarried || IsFreeEntry(entry) || entry.kind == ResizedAfterAllocation
            || IsAssignmentEntry(entry) || IsClosingEntry(entry)
  {
  }

  lemma EvidenceParts(tables: Tables, field: nat, kind: TypeId, entry: Evidence)
    requires Countable(tables) && field < FieldCount(tables.fields)
    ensures var assignments := AssignmentRows(tables, field);
            entry in ReferenceScan(tables, P.Meaning(tables), field, kind).evidence
            <==> || entry in AlignmentEvidence(OverAligned(tables, kind, 0))
                 || entry in FreeEvidence(tables, tables.fields.owner[field], OperationRows(tables, Free, field))
                 || entry in ResizeEvidence(tables, OperationRows(tables, Resize, field))
                 || entry in AssignmentEvidence(tables, assignments)
                 || entry in ClosingEvidence(FactsOf(tables, P.Meaning(tables), assignments))
  {
  }
}
