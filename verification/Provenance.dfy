/** Which allocator reaches each parameter: a fixed point over call arguments. */
module Provenance {
  import opened Basics
  import opened Facts

  datatype AllocatorClass = Unset | Global | Arena | Conflicting

  /** Two call arguments that handed one parameter different allocators. */
  datatype Disagreement = Disagreement(
    parameter: u32,
    first: u32,
    second: u32,
    firstClass: AllocatorClass,
    secondClass: AllocatorClass)

  datatype Provenance = Provenance(
    parameterClass: seq<AllocatorClass>,
    disagreements: seq<Disagreement>,
    converged: bool)

  function Join(left: AllocatorClass, right: AllocatorClass): AllocatorClass {
    match (left, right)
    case (Unset, other) => other
    case (other, Unset) => other
    case (Conflicting, _) => Conflicting
    case (_, Conflicting) => Conflicting
    case (Global, Global) => Global
    case (Arena, Arena) => Arena
    case _ => Conflicting
  }

  /** The order whose least upper bound `Join` is: Unset, then Global and Arena, then Conflicting. */
  predicate Below(lower: AllocatorClass, upper: AllocatorClass) {
    lower == Unset || lower == upper || upper == Conflicting
  }

  lemma JoinIsLeastUpperBound(left: AllocatorClass, right: AllocatorClass, bound: AllocatorClass)
    ensures Below(Join(left, right), bound) <==> Below(left, bound) && Below(right, bound)
  {
  }

  function GlobalParameterIndex(tables: Tables, func: FunctionId, parameterIndex: u32): (r: Option<nat>)
    ensures r.Some? ==> r.value < ParameterCount(tables.parameters)
  {
    if func == NO_INDEX || parameterIndex == NO_INDEX then None
    else
      match (Get(tables.functions.parameterStart, func), Get(tables.functions.parameterCount, func))
      case (Some(start), Some(count)) =>
        if parameterIndex >= count then None
        else
          var slot := (start as int) + parameterIndex;
          if slot < ParameterCount(tables.parameters) then Some(slot) else None
      case _ => None
  }

  function ClassOfSource(tables: Tables, classes: seq<AllocatorClass>, source: AllocatorSourceId): AllocatorClass
    requires |classes| == ParameterCount(tables.parameters)
  {
    if source >= |tables.allocatorSources.kind| then Conflicting
    else
      match tables.allocatorSources.kind[source]
      case GlobalSource => Global
      case ArenaSource => Arena
      case UnknownSource => Conflicting
      case ParameterSource =>
        match (Get(tables.allocatorSources.function_, source),
               Get(tables.allocatorSources.parameterIndex, source))
        case (Some(func), Some(parameterIndex)) =>
          (match GlobalParameterIndex(tables, func, parameterIndex)
           case Some(slot) => classes[slot]
           case None => Conflicting)
        case _ => Conflicting
  }

  // ---- What the fixed point means --------------------------------------------------------

  /** Where an allocator comes from: a class of its own, or whatever a parameter holds. */
  datatype Origin = Concrete(class_: AllocatorClass) | FromSlot(slot: nat)

  /** An Unknown source, and a source or a parameter that does not exist, is concretely Conflicting. */
  function OriginOf(tables: Tables, source: AllocatorSourceId): (r: Origin)
    ensures r.FromSlot? ==> r.slot < ParameterCount(tables.parameters)
    ensures r.Concrete? ==> r.class_ != Unset
  {
    var sources := tables.allocatorSources;
    if source < |sources.kind| && sources.kind[source].GlobalSource? then Concrete(Global)
    else if source < |sources.kind| && sources.kind[source].ArenaSource? then Concrete(Arena)
    else if source < |sources.kind| && sources.kind[source].ParameterSource?
            && source < |sources.function_| && source < |sources.parameterIndex| then
      var slot := GlobalParameterIndex(tables, sources.function_[source], sources.parameterIndex[source]);
      if slot.Some? then FromSlot(slot.value) else Concrete(Conflicting)
    else Concrete(Conflicting)
  }

  function Read(classes: seq<AllocatorClass>, origin: Origin): AllocatorClass
    requires origin.FromSlot? ==> origin.slot < |classes|
  {
    match origin
    case Concrete(c) => c
    case FromSlot(slot) => classes[slot]
  }

  /** The parameter a call argument fills, when all three of its columns and its call resolve. */
  function TargetOf(tables: Tables, row: nat): (r: Option<nat>)
    ensures r.Some? ==> r.value < ParameterCount(tables.parameters)
    ensures r.Some? ==> row < |tables.callArguments.call| && row < |tables.callArguments.source|
  {
    var arguments := tables.callArguments;
    if row >= |arguments.call| then None
    else
      match (Get(tables.calls.callee, arguments.call[row]), Get(arguments.parameterIndex, row),
             Get(arguments.source, row))
      case (Some(callee), Some(parameterIndex), Some(_)) =>
        GlobalParameterIndex(tables, callee, parameterIndex)
      case _ => None
  }

  function OriginAt(tables: Tables, row: nat): (r: Origin)
    requires TargetOf(tables, row).Some?
    ensures r.FromSlot? ==> r.slot < ParameterCount(tables.parameters)
    ensures r.Concrete? ==> r.class_ != Unset
  {
    OriginOf(tables, tables.callArguments.source[row])
  }

  /** A chain of call arguments that carries a source of class `c` to the parameter `slot`. */
  ghost predicate FlowPath(tables: Tables, path: seq<nat>, c: AllocatorClass, slot: nat) {
    && |path| > 0
    && var row := path[|path| - 1];
    && TargetOf(tables, row) == Some(slot)
    && match OriginAt(tables, row)
       case Concrete(d) => |path| == 1 && d == c
       case FromSlot(from) => FlowPath(tables, path[..|path| - 1], c, from)
  }

  ghost predicate Reaches(tables: Tables, c: AllocatorClass, slot: nat) {
    exists path :: FlowPath(tables, path, c, slot)
  }

  ghost function ReachingClasses(tables: Tables, slot: nat): set<AllocatorClass> {
    set c: AllocatorClass | Reaches(tables, c, slot)
  }

  /** The least upper bound of a set of classes. */
  ghost function JoinOf(classes: set<AllocatorClass>): AllocatorClass {
    if Conflicting in classes || (Global in classes && Arena in classes) then Conflicting
    else if Global in classes then Global
    else if Arena in classes then Arena
    else Unset
  }

  lemma JoinOfIsLeastUpperBound(classes: set<AllocatorClass>, bound: AllocatorClass)
    ensures Below(JoinOf(classes), bound) <==> forall c :: c in classes ==> Below(c, bound)
  {
  }

  /** The class every parameter ought to have. */
  ghost function Meaning(tables: Tables): seq<AllocatorClass> {
    seq(ParameterCount(tables.parameters), (slot: nat) => JoinOf(ReachingClasses(tables, slot)))
  }

  /** Whether an argument's contribution is already below what the parameter it fills holds. */
  ghost predicate Satisfied(tables: Tables, classes: seq<AllocatorClass>, row: nat)
    requires |classes| == ParameterCount(tables.parameters)
  {
    var slot := TargetOf(tables, row);
    slot.Some? ==> Below(Read(classes, OriginAt(tables, row)), classes[slot.value])
  }

  ghost predicate Solution(tables: Tables, classes: seq<AllocatorClass>)
    requires |classes| == ParameterCount(tables.parameters)
  {
    forall row: nat :: Satisfied(tables, classes, row)
  }

  lemma ClassOfSourceReadsItsOrigin(tables: Tables, classes: seq<AllocatorClass>, source: AllocatorSourceId)
    requires |classes| == ParameterCount(tables.parameters)
    ensures ClassOfSource(tables, classes, source) == Read(classes, OriginOf(tables, source))
  {
  }

  lemma {:induction false} SolutionAboveEveryPath(
    tables: Tables, classes: seq<AllocatorClass>, path: seq<nat>, c: AllocatorClass, slot: nat)
    requires |classes| == ParameterCount(tables.parameters) && Solution(tables, classes)
    requires FlowPath(tables, path, c, slot)
    ensures slot < |classes| && Below(c, classes[slot])
  {
    var row := path[|path| - 1];
    assert Satisfied(tables, classes, row);
    match OriginAt(tables, row)
    case Concrete(_) =>
    case FromSlot(from) => SolutionAboveEveryPath(tables, classes, path[..|path| - 1], c, from);
  }

  lemma ExtendPath(tables: Tables, path: seq<nat>, c: AllocatorClass, from: nat, row: nat)
    requires FlowPath(tables, path, c, from)
    requires TargetOf(tables, row).Some? && OriginAt(tables, row) == FromSlot(from)
    ensures FlowPath(tables, path + [row], c, TargetOf(tables, row).value)
  {
    assert (path + [row])[..|path|] == path;
  }

  lemma ReachingClassesFlow(tables: Tables, row: nat)
    requires TargetOf(tables, row).Some?
    ensures var slot := TargetOf(tables, row).value;
            match OriginAt(tables, row)
            case Concrete(c) => c in ReachingClasses(tables, slot)
            case FromSlot(from) => ReachingClasses(tables, from) <= ReachingClasses(tables, slot)
  {
    var slot := TargetOf(tables, row).value;
    match OriginAt(tables, row)
    case Concrete(c) =>
      assert FlowPath(tables, [row], c, slot);
    case FromSlot(from) =>
      forall c | c in ReachingClasses(tables, from)
        ensures c in ReachingClasses(tables, slot)
      {
        var path :| FlowPath(tables, path, c, from);
        ExtendPath(tables, path, c, from, row);
      }
  }

  /** The join over all paths satisfies every argument's constraint. */
  lemma MeaningIsASolution(tables: Tables)
    ensures Solution(tables, Meaning(tables))
  {
    forall row: nat
      ensures Satisfied(tables, Meaning(tables), row)
    {
      if TargetOf(tables, row).Some? {
        ReachingClassesFlow(tables, row);
      }
    }
  }

  /** The join over all paths is below every assignment that satisfies all the constraints. */
  lemma MeaningIsLeast(tables: Tables, classes: seq<AllocatorClass>)
    requires |classes| == ParameterCount(tables.parameters) && Solution(tables, classes)
    ensures forall slot :: 0 <= slot < |classes| ==> Below(Meaning(tables)[slot], classes[slot])
  {
    forall slot | 0 <= slot < |classes|
      ensures Below(Meaning(tables)[slot], classes[slot])
    {
      forall c | c in ReachingClasses(tables, slot)
        ensures Below(c, classes[slot])
      {
        var path :| FlowPath(tables, path, c, slot);
        SolutionAboveEveryPath(tables, classes, path, c, slot);
      }
      JoinOfIsLeastUpperBound(ReachingClasses(tables, slot), classes[slot]);
    }
  }

  // ---- Why a parameter is conflicting ----------------------------------------------------

  /** A chain of call arguments that hands what parameter `from` holds on to parameter `to`. */
  ghost predicate FlowsTo(tables: Tables, path: seq<nat>, from: nat, to: nat) {
    if |path| == 0 then from == to
    else
      var row := path[|path| - 1];
      && TargetOf(tables, row) == Some(to)
      && OriginAt(tables, row).FromSlot?
      && FlowsTo(tables, path[..|path| - 1], from, OriginAt(tables, row).slot)
  }

  /** The call argument `row` is the last step of a path that carries class `c` to `slot`. */
  ghost predicate Delivers(tables: Tables, row: nat, c: AllocatorClass, slot: nat) {
    exists path :: FlowPath(tables, path, c, slot) && path[|path| - 1] == row
  }

  /** Two different real rows that deliver a Global and an Arena allocator to one parameter. */
  ghost predicate Justified(tables: Tables, d: Disagreement) {
    && d.first != d.second
    && Delivers(tables, d.first, d.firstClass, d.parameter)
    && Delivers(tables, d.second, d.secondClass, d.parameter)
    && {d.firstClass, d.secondClass} == {Global, Arena}
  }

  ghost predicate ExplainedBy(tables: Tables, disagreements: seq<Disagreement>, slot: nat) {
    exists i, path :: 0 <= i < |disagreements| && FlowsTo(tables, path, disagreements[i].parameter, slot)
  }

  lemma ExtendFlow(tables: Tables, disagreements: seq<Disagreement>, from: nat, row: nat)
    requires ExplainedBy(tables, disagreements, from)
    requires TargetOf(tables, row).Some? && OriginAt(tables, row) == FromSlot(from)
    ensures ExplainedBy(tables, disagreements, TargetOf(tables, row).value)
  {
    var i, path :| 0 <= i < |disagreements| && FlowsTo(tables, path, disagreements[i].parameter, from);
    assert (path + [row])[..|path|] == path;
    assert FlowsTo(tables, path + [row], disagreements[i].parameter, TargetOf(tables, row).value);
  }

  lemma {:induction false} FlowKeepsClasses(tables: Tables, path: seq<nat>, from: nat, to: nat)
    requires FlowsTo(tables, path, from, to)
    ensures ReachingClasses(tables, from) <= ReachingClasses(tables, to)
  {
    if |path| > 0 {
      FlowKeepsClasses(tables, path[..|path| - 1], from, OriginAt(tables, path[|path| - 1]).slot);
      ReachingClassesFlow(tables, path[|path| - 1]);
    }
  }

  // ---- The fixed point --------------------------------------------------------------------

  /** What the rounds carry from one call argument to the next. */
  datatype State = State(classes: seq<AllocatorClass>, witnessRow: seq<u32>, disagreements: seq<Disagreement>)

  /** What one call argument does to the state. */
  function Step(tables: Tables, s: State, row: nat): (r: State)
    requires |s.classes| == |s.witnessRow| == ParameterCount(tables.parameters) <= 0x1_0000_0000
    requires row < NO_INDEX
    ensures |r.classes| == |r.witnessRow| == |s.classes|
  {
    var target := TargetOf(tables, row);
    if target.None? then s
    else
      var slot := target.value;
      var contributed := Read(s.classes, OriginAt(tables, row));
      var held := s.classes[slot];
      var merged := Join(held, contributed);
      if merged == held then s
      else
        State(
          s.classes[slot := merged],
          if merged != Conflicting then s.witnessRow[slot := row] else s.witnessRow,
          if merged == Conflicting && held != Unset && contributed != Conflicting
          then s.disagreements + [Disagreement(slot, s.witnessRow[slot], row, held, contributed)]
          else s.disagreements)
  }

  /** What holds of one parameter after any number of steps. */
  ghost predicate Accounted(tables: Tables, s: State, slot: nat)
    requires slot < |s.classes| == |s.witnessRow| == ParameterCount(tables.parameters)
  {
    match s.classes[slot]
    case Unset => true
    case Conflicting =>
      && JoinOf(ReachingClasses(tables, slot)) == Conflicting
      && (Reaches(tables, Conflicting, slot) || ExplainedBy(tables, s.disagreements, slot))
    case c =>
      && Delivers(tables, s.witnessRow[slot], c, slot)
      && s.witnessRow[slot] < NO_INDEX
      && TargetOf(tables, s.witnessRow[slot]) == Some(slot)
      && Below(c, Read(s.classes, OriginAt(tables, s.witnessRow[slot])))
  }

  ghost predicate DisagreementsHold(tables: Tables, s: State)
    requires |s.classes| == ParameterCount(tables.parameters)
  {
    && (forall i :: 0 <= i < |s.disagreements| ==>
          && Justified(tables, s.disagreements[i])
          && s.disagreements[i].parameter < |s.classes|
          && s.classes[s.disagreements[i].parameter] == Conflicting)
    && (forall i, j :: 0 <= i < j < |s.disagreements| ==>
          s.disagreements[i].parameter != s.disagreements[j].parameter)
  }

  ghost predicate Inv(tables: Tables, s: State) {
    && |s.classes| == |s.witnessRow| == ParameterCount(tables.parameters) <= 0x1_0000_0000
    && (forall slot :: 0 <= slot < |s.classes| ==> Accounted(tables, s, slot))
    && DisagreementsHold(tables, s)
  }

  lemma ContributionIsDelivered(tables: Tables, s: State, row: nat)
    requires Inv(tables, s) && TargetOf(tables, row).Some?
    ensures var c := Read(s.classes, OriginAt(tables, row));
            c == Global || c == Arena ==> Delivers(tables, row, c, TargetOf(tables, row).value)
  {
    var slot := TargetOf(tables, row).value;
    var c := Read(s.classes, OriginAt(tables, row));
    if c == Global || c == Arena {
      match OriginAt(tables, row)
      case Concrete(_) =>
        assert FlowPath(tables, [row], c, slot) && [row][|[row]| - 1] == row;
      case FromSlot(from) =>
        assert Accounted(tables, s, from);
        var path :| FlowPath(tables, path, c, from) && path[|path| - 1] == s.witnessRow[from];
        ExtendPath(tables, path, c, from, row);
        assert (path + [row])[|path + [row]| - 1] == row;
    }
  }

  /** A step that makes its parameter conflicting leaves a reason behind. */
  lemma StepToConflict(tables: Tables, s: State, row: nat)
    requires Inv(tables, s) && row < NO_INDEX && TargetOf(tables, row).Some?
    requires var slot := TargetOf(tables, row).value;
             s.classes[slot] != Conflicting && Step(tables, s, row).classes[slot] == Conflicting
    ensures Accounted(tables, Step(tables, s, row), TargetOf(tables, row).value)
  {
    var slot := TargetOf(tables, row).value;
    var r := Step(tables, s, row);
    var contributed := Read(s.classes, OriginAt(tables, row));
    ReachingClassesFlow(tables, row);
    if contributed == Conflicting {
      match OriginAt(tables, row)
      case Concrete(_) =>
      case FromSlot(from) =>
        assert Accounted(tables, s, from);
        if Reaches(tables, Conflicting, from) {
          assert Conflicting in ReachingClasses(tables, from);
          assert Conflicting in ReachingClasses(tables, slot);
        } else {
          ExtendFlow(tables, s.disagreements, from, row);
          assert r.disagreements == s.disagreements;
        }
    } else {
      assert Accounted(tables, s, slot);
      ContributionIsDelivered(tables, s, row);
      assert s.classes[slot] in ReachingClasses(tables, slot);
      assert contributed in ReachingClasses(tables, slot);
      var last := |s.disagreements|;
      assert r.disagreements[last].parameter == slot;
      assert FlowsTo(tables, [], r.disagreements[last].parameter, slot);
    }
  }

  lemma MoreDisagreementsExplainMore(tables: Tables, before: seq<Disagreement>, after: seq<Disagreement>, slot: nat)
    requires before <= after && ExplainedBy(tables, before, slot)
    ensures ExplainedBy(tables, after, slot)
  {
    var i, path :| 0 <= i < |before| && FlowsTo(tables, path, before[i].parameter, slot);
    assert after[i] == before[i];
  }

  lemma StepKeepsOthersAccounted(tables: Tables, s: State, row: nat, slot: nat)
    requires Inv(tables, s) && row < NO_INDEX && slot < |s.classes|
    requires TargetOf(tables, row) != Some(slot)
    ensures Accounted(tables, Step(tables, s, row), slot)
  {
    var r := Step(tables, s, row);
    assert Accounted(tables, s, slot);
    StepLeavesOthers(tables, s, row, slot);
    if s.classes[slot] == Conflicting {
      if ExplainedBy(tables, s.disagreements, slot) {
        MoreDisagreementsExplainMore(tables, s.disagreements, r.disagreements, slot);
      }
    }
  }

  lemma StepLeavesOthers(tables: Tables, s: State, row: nat, slot: nat)
    requires Inv(tables, s) && row < NO_INDEX && slot < |s.classes|
    requires TargetOf(tables, row) != Some(slot)
    ensures var r := Step(tables, s, row);
            && |r.classes| == |s.classes| && |r.witnessRow| == |s.witnessRow|
            && r.classes[slot] == s.classes[slot] && r.witnessRow[slot] == s.witnessRow[slot]
            && s.disagreements <= r.disagreements
            && forall other :: 0 <= other < |s.classes| ==> Below(s.classes[other], r.classes[other])
  {
  }

  lemma StepKeepsTargetAccounted(tables: Tables, s: State, row: nat)
    requires Inv(tables, s) && row < NO_INDEX && TargetOf(tables, row).Some?
    ensures Accounted(tables, Step(tables, s, row), TargetOf(tables, row).value)
  {
    var slot := TargetOf(tables, row).value;
    var r := Step(tables, s, row);
    assert Accounted(tables, s, slot);
    if r != s {
      if r.classes[slot] == Conflicting {
        StepToConflict(tables, s, row);
      } else {
        ContributionIsDelivered(tables, s, row);
      }
    }
  }

  lemma NewDisagreementIsJustified(tables: Tables, s: State, row: nat)
    requires Inv(tables, s) && row < NO_INDEX
    requires Step(tables, s, row).disagreements != s.disagreements
    ensures |Step(tables, s, row).disagreements| == |s.disagreements| + 1
    ensures Justified(tables, Step(tables, s, row).disagreements[|s.disagreements|])
  {
    assert Accounted(tables, s, TargetOf(tables, row).value);
    ContributionIsDelivered(tables, s, row);
  }

  lemma StepKeepsDisagreements(tables: Tables, s: State, row: nat)
    requires Inv(tables, s) && row < NO_INDEX
    ensures DisagreementsHold(tables, Step(tables, s, row))
  {
    var r := Step(tables, s, row);
    if r.disagreements != s.disagreements {
      NewDisagreementIsJustified(tables, s, row);
      var slot := TargetOf(tables, row).value;
      assert s.classes[slot] != Conflicting && r.classes == s.classes[slot := Conflicting];
      var longer, last := r.disagreements, |s.disagreements|;
      assert longer[last].parameter == slot && longer[..last] == s.disagreements;
      forall i | 0 <= i < last
        ensures longer[i] == s.disagreements[i] && longer[i].parameter != slot
      {
      }
    } else {
      forall i | 0 <= i < |s.disagreements|
        ensures r.classes[s.disagreements[i].parameter] == Conflicting
      {
      }
    }
  }

  /** Every step keeps every parameter accounted for and every disagreement justified. */
  lemma StepKeepsInvariant(tables: Tables, s: State, row: nat)
    requires Inv(tables, s) && row < NO_INDEX
    ensures Inv(tables, Step(tables, s, row))
  {
    var r := Step(tables, s, row);
    forall slot | 0 <= slot < |r.classes|
      ensures Accounted(tables, r, slot)
    {
      if TargetOf(tables, row) == Some(slot) {
        StepKeepsTargetAccounted(tables, s, row);
      } else {
        StepKeepsOthersAccounted(tables, s, row, slot);
      }
    }
    StepKeepsDisagreements(tables, s, row);
  }

  // ---- Termination -------------------------------------------------------------------------

  function Height(c: AllocatorClass): nat {
    match c
    case Unset => 0
    case Conflicting => 2
    case _ => 1
  }

  ghost function TotalHeight(classes: seq<AllocatorClass>): nat {
    if classes == [] then 0 else Height(classes[0]) + TotalHeight(classes[1..])
  }

  lemma {:induction false} TotalHeightBound(classes: seq<AllocatorClass>)
    ensures TotalHeight(classes) <= 2 * |classes|
  {
    if classes != [] {
      TotalHeightBound(classes[1..]);
    }
  }

  lemma {:induction false} TotalHeightUpdate(classes: seq<AllocatorClass>, slot: nat, c: AllocatorClass)
    requires slot < |classes|
    ensures TotalHeight(classes[slot := c]) == TotalHeight(classes) - Height(classes[slot]) + Height(c)
  {
    if slot == 0 {
      assert classes[0 := c][1..] == classes[1..];
    } else {
      assert classes[slot := c][1..] == classes[1..][slot - 1 := c];
      TotalHeightUpdate(classes[1..], slot - 1, c);
    }
  }

  lemma SolvedInvariantIsMeaning(tables: Tables, s: State)
    requires Inv(tables, s) && Solution(tables, s.classes)
    ensures s.classes == Meaning(tables)
  {
    MeaningIsLeast(tables, s.classes);
    forall slot | 0 <= slot < |s.classes|
      ensures s.classes[slot] == Meaning(tables)[slot]
    {
      assert Accounted(tables, s, slot);
      if s.classes[slot] == Global || s.classes[slot] == Arena {
        assert s.classes[slot] in ReachingClasses(tables, slot);
      }
    }
  }

  /** A parameter is conflicting exactly when an unknown source reaches it or a disagreement explains it. */
  lemma ConflictsAreExplained(tables: Tables, s: State)
    requires Inv(tables, s) && s.classes == Meaning(tables)
    ensures forall slot :: 0 <= slot < |s.classes| ==>
      (s.classes[slot] == Conflicting <==>
         Reaches(tables, Conflicting, slot) || ExplainedBy(tables, s.disagreements, slot))
  {
    forall slot | 0 <= slot < |s.classes|
      ensures s.classes[slot] == Conflicting <==>
                Reaches(tables, Conflicting, slot) || ExplainedBy(tables, s.disagreements, slot)
    {
      assert Accounted(tables, s, slot);
      if Reaches(tables, Conflicting, slot) {
        assert Conflicting in ReachingClasses(tables, slot);
      } else if ExplainedBy(tables, s.disagreements, slot) {
        var i, path :| 0 <= i < |s.disagreements| && FlowsTo(tables, path, s.disagreements[i].parameter, slot);
        assert Justified(tables, s.disagreements[i]);
        DisagreementFlowsOn(tables, s.disagreements[i], path, slot);
      }
    }
  }

  lemma DisagreementFlowsOn(tables: Tables, d: Disagreement, path: seq<nat>, slot: nat)
    requires Justified(tables, d) && FlowsTo(tables, path, d.parameter, slot)
    ensures Global in ReachingClasses(tables, slot) && Arena in ReachingClasses(tables, slot)
  {
    FlowKeepsClasses(tables, path, d.parameter, slot);
    assert d.firstClass in ReachingClasses(tables, d.parameter);
    assert d.secondClass in ReachingClasses(tables, d.parameter);
    assert Global in {d.firstClass, d.secondClass} && Arena in {d.firstClass, d.secondClass};
  }

  lemma StepRaisesHeight(tables: Tables, s: State, row: nat)
    requires Inv(tables, s) && row < NO_INDEX
    ensures (Step(tables, s, row) == s && Satisfied(tables, s.classes, row))
            || TotalHeight(Step(tables, s, row).classes) > TotalHeight(s.classes)
  {
    var target := TargetOf(tables, row);
    if target.Some? && Step(tables, s, row) != s {
      TotalHeightUpdate(s.classes, target.value, Step(tables, s, row).classes[target.value]);
    }
  }

  /** Lets one call argument contribute to the parameter it fills. */
  method ApplyArgument(
    tables: Tables, row: nat, parameterClass: array<AllocatorClass>, witnessRow: array<u32>,
    disagreements: seq<Disagreement>)
    returns (changed: bool, disagreements': seq<Disagreement>)
    requires parameterClass.Length == witnessRow.Length == ParameterCount(tables.parameters) <= 0x1_0000_0000
    requires row < NO_INDEX
    modifies parameterClass, witnessRow
    ensures var before := old(State(parameterClass[..], witnessRow[..], disagreements));
            && State(parameterClass[..], witnessRow[..], disagreements') == Step(tables, before, row)
            && (changed <==> Step(tables, before, row) != before)
  {
    changed, disagreements' := false, disagreements;
    var target := TargetOf(tables, row);
    if target.None? {
      return;
    }
    var slot := target.value;
    ClassOfSourceReadsItsOrigin(tables, parameterClass[..], tables.callArguments.source[row]);
    var contributed := ClassOfSource(tables, parameterClass[..], tables.callArguments.source[row]);
    var held := parameterClass[slot];
    var merged := Join(held, contributed);
    if merged == held {
      return;
    }
    ghost var classesBefore := parameterClass[..];
    if merged == Conflicting && held != Unset && contributed != Conflicting {
      disagreements' := disagreements + [Disagreement(slot, witnessRow[slot], row, held, contributed)];
    }
    if merged != Conflicting {
      witnessRow[slot] := row;
    }
    parameterClass[slot] := merged;
    changed := true;
    assert parameterClass[..][slot] != classesBefore[slot];
  }

  /** One round over every call argument: something rises, or the classes already solve every constraint. */
  method RunRound(
    tables: Tables, parameterClass: array<AllocatorClass>, witnessRow: array<u32>, disagreements: seq<Disagreement>)
    returns (changed: bool, disagreements': seq<Disagreement>)
    requires |tables.callArguments.call| <= NO_INDEX
    requires Inv(tables, State(parameterClass[..], witnessRow[..], disagreements))
    modifies parameterClass, witnessRow
    ensures Inv(tables, State(parameterClass[..], witnessRow[..], disagreements'))
    ensures changed ==> TotalHeight(parameterClass[..]) > old(TotalHeight(parameterClass[..]))
    ensures !changed ==> Solution(tables, parameterClass[..])
  {
    changed, disagreements' := false, disagreements;
    ghost var state := State(parameterClass[..], witnessRow[..], disagreements);
    ghost var height := TotalHeight(state.classes);
    for row := 0 to |tables.callArguments.call|
      invariant state == State(parameterClass[..], witnessRow[..], disagreements')
      invariant Inv(tables, state)
      invariant TotalHeight(state.classes) >= if changed then height + 1 else height
      invariant !changed ==> forall r: nat :: r < row ==> Satisfied(tables, state.classes, r)
    {
      StepKeepsInvariant(tables, state, row);
      StepRaisesHeight(tables, state, row);
      var moved;
      moved, disagreements' := ApplyArgument(tables, row, parameterClass, witnessRow, disagreements');
      changed := changed || moved;
      state := Step(tables, state, row);
    }
  }

  method ResolveAllocatorProvenance(tables: Tables) returns (provenance: Provenance)
    requires |tables.callArguments.call| <= NO_INDEX
    requires ParameterCount(tables.parameters) <= 0x1_0000_0000
    // The class of every parameter is the join over all the paths that reach it.
    ensures provenance.parameterClass == Meaning(tables)
    ensures provenance.converged
    // Every conflict has a recorded reason, and every recorded reason is real.
    ensures forall i :: 0 <= i < |provenance.disagreements| ==> Justified(tables, provenance.disagreements[i])
    ensures forall i, j :: 0 <= i < j < |provenance.disagreements| ==>
              provenance.disagreements[i].parameter != provenance.disagreements[j].parameter
    ensures forall slot :: 0 <= slot < ParameterCount(tables.parameters) ==>
              (provenance.parameterClass[slot] == Conflicting <==>
                 Reaches(tables, Conflicting, slot) || ExplainedBy(tables, provenance.disagreements, slot))
  {
    var parameters := ParameterCount(tables.parameters);
    var parameterClass := new AllocatorClass[parameters](_ => Unset);
    var witnessRow := new u32[parameters](_ => NO_INDEX);
    var disagreements: seq<Disagreement> := [];
    var limit := parameters * 3 + 4;
    var converged := false;
    for round := 0 to limit
      invariant !converged && round <= TotalHeight(parameterClass[..])
      invariant Inv(tables, State(parameterClass[..], witnessRow[..], disagreements))
    {
      var changed;
      changed, disagreements := RunRound(tables, parameterClass, witnessRow, disagreements);
      if !changed {
        converged := true;
        break;
      }
    }
    TotalHeightBound(parameterClass[..]);
    ghost var state := State(parameterClass[..], witnessRow[..], disagreements);
    SolvedInvariantIsMeaning(tables, state);
    ConflictsAreExplained(tables, state);
    provenance := Provenance(parameterClass[..], disagreements, converged);
  }

  // ---- Consequences -------------------------------------------------------------------------

  /** Unset exactly when nothing reaches, Global exactly when something does and all of it is Global. */
  lemma MeaningReadsBack(tables: Tables, slot: nat)
    requires slot < ParameterCount(tables.parameters)
    ensures Meaning(tables)[slot] == Unset <==> forall c :: !Reaches(tables, c, slot)
    ensures Meaning(tables)[slot] == Global <==>
              Reaches(tables, Global, slot) && forall c :: Reaches(tables, c, slot) ==> c == Global
    ensures Meaning(tables)[slot] == Arena <==>
              Reaches(tables, Arena, slot) && forall c :: Reaches(tables, c, slot) ==> c == Arena
  {
    forall c | Reaches(tables, c, slot)
      ensures c in ReachingClasses(tables, slot) && c != Unset
    {
      var path :| FlowPath(tables, path, c, slot);
      PathsCarryRealClasses(tables, path, c, slot);
    }
    assert forall c :: c in ReachingClasses(tables, slot) ==> Reaches(tables, c, slot);
  }

  lemma {:induction false} PathsCarryRealClasses(tables: Tables, path: seq<nat>, c: AllocatorClass, slot: nat)
    requires FlowPath(tables, path, c, slot)
    ensures c != Unset
  {
    match OriginAt(tables, path[|path| - 1])
    case Concrete(_) =>
    case FromSlot(from) => PathsCarryRealClasses(tables, path[..|path| - 1], c, from);
  }

  /** Every argument of one program is matched by an argument of the other that says the same. */
  ghost predicate SaysNoMoreThan(less: Tables, more: Tables) {
    forall row: nat :: TargetOf(less, row).Some? ==>
      exists other: nat :: TargetOf(more, other) == TargetOf(less, row)
                           && OriginAt(more, other) == OriginAt(less, row)
  }

  /** Fewer arguments can only give lower classes, so equal argument sets give equal classes. */
  lemma MeaningIsMonotone(less: Tables, more: Tables)
    requires ParameterCount(less.parameters) == ParameterCount(more.parameters)
    requires SaysNoMoreThan(less, more)
    ensures forall slot :: 0 <= slot < ParameterCount(less.parameters) ==>
              Below(Meaning(less)[slot], Meaning(more)[slot])
  {
    MeaningIsASolution(more);
    forall row: nat
      ensures Satisfied(less, Meaning(more), row)
    {
      if TargetOf(less, row).Some? {
        var other: nat :| TargetOf(more, other) == TargetOf(less, row)
                          && OriginAt(more, other) == OriginAt(less, row);
        assert Satisfied(more, Meaning(more), other);
      }
    }
    MeaningIsLeast(less, Meaning(more));
  }

  /** The call argument columns read in the order `order` gives. */
  function Reordered(arguments: CallArguments, order: seq<nat>): CallArguments
    requires |arguments.call| == |arguments.parameterIndex| == |arguments.source|
    requires forall i :: 0 <= i < |order| ==> order[i] < |arguments.call|
  {
    CallArguments(
      seq(|order|, i requires 0 <= i < |order| => arguments.call[order[i]]),
      seq(|order|, i requires 0 <= i < |order| => arguments.parameterIndex[order[i]]),
      seq(|order|, i requires 0 <= i < |order| => arguments.source[order[i]]))
  }

  lemma ReorderedRow(tables: Tables, order: seq<nat>, row: nat)
    requires |tables.callArguments.call| == |tables.callArguments.parameterIndex| == |tables.callArguments.source|
    requires forall i :: 0 <= i < |order| ==> order[i] < |tables.callArguments.call|
    requires row < |order|
    ensures var reordered := tables.(callArguments := Reordered(tables.callArguments, order));
            TargetOf(reordered, row) == TargetOf(tables, order[row])
            && (TargetOf(reordered, row).Some? ==> OriginAt(reordered, row) == OriginAt(tables, order[row]))
  {
  }

  /** The order the call arguments come in does not matter. */
  lemma ArgumentOrderIsIrrelevant(tables: Tables, order: seq<nat>)
    requires |tables.callArguments.call| == |tables.callArguments.parameterIndex| == |tables.callArguments.source|
    requires forall i :: 0 <= i < |order| ==> order[i] < |tables.callArguments.call|
    requires forall row: nat :: row < |tables.callArguments.call| ==> row in order
    ensures Meaning(tables.(callArguments := Reordered(tables.callArguments, order))) == Meaning(tables)
  {
    var reordered := tables.(callArguments := Reordered(tables.callArguments, order));
    forall row: nat | TargetOf(reordered, row).Some?
      ensures exists other: nat :: TargetOf(tables, other) == TargetOf(reordered, row)
                                   && OriginAt(tables, other) == OriginAt(reordered, row)
    {
      ReorderedRow(tables, order, row);
    }
    forall row: nat | TargetOf(tables, row).Some?
      ensures exists other: nat :: TargetOf(reordered, other) == TargetOf(tables, row)
                                   && OriginAt(reordered, other) == OriginAt(tables, row)
    {
      assert row in order;
      var i :| 0 <= i < |order| && order[i] == row;
      ReorderedRow(tables, order, i);
    }
    MeaningIsMonotone(tables, reordered);
    MeaningIsMonotone(reordered, tables);
    forall slot | 0 <= slot < |Meaning(tables)|
      ensures Meaning(tables)[slot] == Meaning(reordered)[slot]
    {
    }
  }
}
