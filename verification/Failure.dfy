/** What each function can fail with: propagation over the call chains, then naming. */
module Failure {
  import opened Basics
  import opened Facts
  import opened CallGraph
  import opened Validate

  datatype Failure = Failure(sets: set<u32>, allocates: bool, unreadable: bool)

  const NOTHING := Failure({}, false, false)

  function Absorb(into: Failure, from: Failure): Failure {
    Failure(into.sets + from.sets, into.allocates || from.allocates, into.unreadable || from.unreadable)
  }

  /** One thing a failure can say. */
  datatype Fact = InSet(id: u32) | Allocates | Unreadable

  predicate Has(failure: Failure, fact: Fact) {
    match fact
    case InSet(id) => id in failure.sets
    case Allocates => failure.allocates
    case Unreadable => failure.unreadable
  }

  lemma FactsDetermineFailure(left: Failure, right: Failure)
    requires forall fact :: Has(left, fact) <==> Has(right, fact)
    ensures left == right
  {
    assert forall id :: id in left.sets <==> Has(left, InSet(id));
    assert forall id :: id in right.sets <==> Has(right, InSet(id));
    assert left.allocates == Has(left, Allocates) && left.unreadable == Has(left, Unreadable);
    assert right.allocates == Has(right, Allocates) && right.unreadable == Has(right, Unreadable);
  }

  // ---- What each function owns and whom it reaches -------------------------------------------

  /** What reading one body yields: its own failures, and the functions it tries. */
  datatype BodyReading = BodyReading(found: Failure, reaches: seq<FunctionId>)

  /** What every function fails with by itself, and the functions whose failures it lets through. */
  datatype Program = Program(own: seq<Failure>, reaches: seq<seq<FunctionId>>)

  ghost predicate WellFormedProgram(program: Program) {
    |program.own| == |program.reaches|
  }

  predicate AllocatesAt(tables: Tables, row: nat, operation: nat) {
    && Get(tables.memoryOperations.kind, operation) == Some(Allocate)
    && Get(tables.memoryOperations.function_, operation) == Some(row)
  }

  ghost predicate Allocating(tables: Tables, row: nat) {
    exists operation: nat :: operation < MemoryOperationCount(tables.memoryOperations)
                             && AllocatesAt(tables, row, operation)
  }

  /** The error set the Zig declared for a function, where it declared one. */
  function DeclaredSet(tables: Tables, row: nat): Option<StructId> {
    match Get(tables.functions.errorSet, row)
    case Some(id) => if id != NO_INDEX then Some(id) else None
    case None => None
  }

  /** What a function owns: what its body says, an allocation of its, and its declared set. */
  ghost function OwnOf(tables: Tables, row: nat, reading: BodyReading): Failure {
    var declared := DeclaredSet(tables, row);
    Failure(
      reading.found.sets + (if declared.Some? then {declared.value} else {}),
      reading.found.allocates || Allocating(tables, row),
      reading.found.unreadable)
  }

  /** What a body tries, then every callee among the first `bound` calls that is not there yet. */
  function WithCallees(tables: Tables, row: nat, tried: seq<FunctionId>, bound: nat): seq<FunctionId>
    requires bound <= CallCount(tables.calls)
  {
    if bound == 0 then tried
    else
      var earlier, edge := WithCallees(tables, row, tried, bound - 1), bound - 1;
      if tables.calls.caller[edge] == row && edge < |tables.calls.callee| && tables.calls.callee[edge] !in earlier then
        earlier + [tables.calls.callee[edge]]
      else earlier
  }

  function ReachesOf(tables: Tables, row: nat, reading: BodyReading): seq<FunctionId> {
    WithCallees(tables, row, reading.reaches, CallCount(tables.calls))
  }

  ghost predicate CallsBefore(tables: Tables, row: nat, func: nat, bound: nat) {
    exists edge: nat :: edge < bound && edge < CallCount(tables.calls) && edge < |tables.calls.callee|
                        && tables.calls.caller[edge] == row && tables.calls.callee[edge] == func
  }

  lemma CallsBeforeNext(tables: Tables, row: nat, func: nat, bound: nat)
    requires bound < CallCount(tables.calls)
    ensures CallsBefore(tables, row, func, bound + 1) <==>
              || CallsBefore(tables, row, func, bound)
              || (bound < |tables.calls.callee|
                  && tables.calls.caller[bound] == row && tables.calls.callee[bound] == func)
  {
  }

  lemma {:induction false} WithCalleesAre(
    tables: Tables, row: nat, tried: seq<FunctionId>, bound: nat, func: FunctionId)
    requires bound <= CallCount(tables.calls)
    ensures tried <= WithCallees(tables, row, tried, bound)
    ensures func in WithCallees(tables, row, tried, bound) <==> func in tried || CallsBefore(tables, row, func, bound)
  {
    if bound > 0 {
      WithCalleesAre(tables, row, tried, bound - 1, func);
      CallsBeforeNext(tables, row, func, bound - 1);
    }
  }

  /** A function reaches what its body tries, and every callee the call table gives it. */
  lemma ReachesAre(tables: Tables, row: nat, reading: BodyReading, func: FunctionId)
    ensures reading.reaches <= ReachesOf(tables, row, reading)
    ensures func in ReachesOf(tables, row, reading) <==> func in reading.reaches || HasCall(tables, row, func)
  {
    WithCalleesAre(tables, row, reading.reaches, CallCount(tables.calls), func);
    if HasCall(tables, row, func) {
      var edge :| 0 <= edge < CallCount(tables.calls) && edge < |tables.calls.callee|
                  && tables.calls.caller[edge] == row && tables.calls.callee[edge] == func;
      assert CallsBefore(tables, row, func, CallCount(tables.calls));
    }
  }

  method CollectReaches(tables: Tables, row: nat, reading: BodyReading) returns (reaches: seq<FunctionId>)
    ensures reaches == ReachesOf(tables, row, reading)
  {
    reaches := reading.reaches;
    for edge := 0 to CallCount(tables.calls)
      invariant reaches == WithCallees(tables, row, reading.reaches, edge)
    {
      if tables.calls.caller[edge] == row && edge < |tables.calls.callee| {
        var callee := tables.calls.callee[edge];
        if callee !in reaches {
          reaches := reaches + [callee];
        }
      }
    }
  }

  method CollectAllocates(tables: Tables, row: nat) returns (allocates: bool)
    ensures allocates <==> Allocating(tables, row)
  {
    for operation := 0 to MemoryOperationCount(tables.memoryOperations)
      invariant forall earlier: nat :: earlier < operation ==> !AllocatesAt(tables, row, earlier)
    {
      if AllocatesAt(tables, row, operation) {
        return true;
      }
    }
    return false;
  }

  /** The program the tables and the readings of all bodies make together. */
  ghost function ProgramFrom(tables: Tables, readings: seq<BodyReading>): (program: Program)
    ensures WellFormedProgram(program) && |program.own| == |readings|
  {
    Program(
      seq(|readings|, row requires 0 <= row < |readings| => OwnOf(tables, row, readings[row])),
      seq(|readings|, row requires 0 <= row < |readings| => ReachesOf(tables, row, readings[row])))
  }

  method Collect(tables: Tables, readings: seq<BodyReading>) returns (program: Program)
    requires |readings| == FunctionCount(tables.functions)
    ensures program == ProgramFrom(tables, readings)
  {
    var own: seq<Failure> := [];
    var reaches: seq<seq<FunctionId>> := [];
    for row := 0 to |readings|
      invariant |own| == |reaches| == row
      invariant forall r :: 0 <= r < row ==> own[r] == OwnOf(tables, r, readings[r])
      invariant forall r :: 0 <= r < row ==> reaches[r] == ReachesOf(tables, r, readings[r])
    {
      var found := readings[row].found;
      var reached := CollectReaches(tables, row, readings[row]);
      var allocates := CollectAllocates(tables, row);
      if allocates {
        found := found.(allocates := true);
      }
      var declared := DeclaredSet(tables, row);
      if declared.Some? {
        found := found.(sets := found.sets + {declared.value});
      }
      own := own + [found];
      reaches := reaches + [reached];
    }
    program := Program(own, reaches);
  }

  // ---- How far a failure travels in a given number of rounds ---------------------------------

  /** A chain of functions, each letting through what the next one fails with. */
  ghost predicate Chain(program: Program, path: seq<nat>)
    requires WellFormedProgram(program)
  {
    && |path| > 0
    && (forall i :: 0 <= i < |path| ==> path[i] < |program.own|)
    && (forall i :: 0 < i < |path| ==> path[i] in program.reaches[path[i - 1]])
  }

  /** The round in which what the last function of a chain owns arrives at the first one.
      Rounds go through the functions in ascending order and update them in place, so a step up
      from a lower row costs nothing once the first round has begun, and any other step waits a round. */
  function Arrival(path: seq<nat>): nat {
    if |path| <= 1 then 0
    else
      var later := Arrival(path[1..]);
      if path[1] < path[0] then (if later == 0 then 1 else later) else later + 1
  }

  /** `row` holds `fact` once `rounds` rounds are over. */
  ghost predicate Held(program: Program, rounds: nat, row: nat, fact: Fact)
    requires WellFormedProgram(program)
  {
    exists path :: Chain(program, path) && path[0] == row && Arrival(path) <= rounds
                   && Has(program.own[path[|path| - 1]], fact)
  }

  /** Some function a chain of calls reaches from `row` owns `fact`. */
  ghost predicate Reached(program: Program, row: nat, fact: Fact)
    requires WellFormedProgram(program)
  {
    exists path :: Chain(program, path) && path[0] == row && Has(program.own[path[|path| - 1]], fact)
  }

  /** What `row` takes from a callee during a round that the callee entered holding `before`. */
  ghost predicate TakesFrom(program: Program, rounds: nat, row: nat, callee: nat, fact: Fact)
    requires WellFormedProgram(program)
  {
    Held(program, if callee < row then rounds + 1 else rounds, callee, fact)
  }

  lemma ChainTail(program: Program, path: seq<nat>)
    requires WellFormedProgram(program) && Chain(program, path) && |path| > 1
    ensures Chain(program, path[1..]) && path[1..][0] == path[1] && path[1..][|path[1..]| - 1] == path[|path| - 1]
  {
    forall i | 0 < i < |path[1..]|
      ensures path[1..][i] in program.reaches[path[1..][i - 1]]
    {
      assert path[i + 1] in program.reaches[path[i]];
    }
  }

  lemma ChainCons(program: Program, row: nat, path: seq<nat>)
    requires WellFormedProgram(program) && Chain(program, path)
    requires row < |program.own| && path[0] in program.reaches[row]
    ensures Chain(program, [row] + path) && ([row] + path)[1..] == path
    ensures ([row] + path)[|[row] + path| - 1] == path[|path| - 1]
  {
    var longer := [row] + path;
    forall i | 0 < i < |longer|
      ensures longer[i] in program.reaches[longer[i - 1]]
    {
      if i > 1 {
        assert path[i - 1] in program.reaches[path[i - 2]];
      }
    }
  }

  lemma HeldLonger(program: Program, rounds: nat, more: nat, row: nat, fact: Fact)
    requires WellFormedProgram(program) && rounds <= more && Held(program, rounds, row, fact)
    ensures Held(program, more, row, fact)
  {
  }

  lemma NextRoundComesFrom(program: Program, rounds: nat, row: nat, fact: Fact)
    requires WellFormedProgram(program) && row < |program.own|
    requires Held(program, rounds + 1, row, fact) && !Held(program, rounds, row, fact)
    ensures exists callee: nat :: callee in program.reaches[row] && TakesFrom(program, rounds, row, callee, fact)
  {
    var path :| Chain(program, path) && path[0] == row && Arrival(path) <= rounds + 1
                && Has(program.own[path[|path| - 1]], fact);
    if |path| == 1 {
      assert Arrival(path) <= rounds;
    } else {
      ChainTail(program, path);
      assert path[1] in program.reaches[path[0]];
      assert TakesFrom(program, rounds, row, path[1], fact);
    }
  }

  lemma TakenIsHeldNext(program: Program, rounds: nat, row: nat, callee: nat, fact: Fact)
    requires WellFormedProgram(program) && row < |program.own|
    requires callee in program.reaches[row] && TakesFrom(program, rounds, row, callee, fact)
    ensures Held(program, rounds + 1, row, fact)
  {
    var path :| Chain(program, path) && path[0] == callee
                && Arrival(path) <= (if callee < row then rounds + 1 else rounds)
                && Has(program.own[path[|path| - 1]], fact);
    ChainCons(program, row, path);
    assert Arrival([row] + path) <= rounds + 1;
  }

  /** What one more round brings a function: what it had, and what its callees hold when it looks. */
  lemma HeldNextRound(program: Program, rounds: nat, row: nat, fact: Fact)
    requires WellFormedProgram(program) && row < |program.own|
    ensures Held(program, rounds + 1, row, fact) <==>
              || Held(program, rounds, row, fact)
              || exists callee: nat :: callee in program.reaches[row] && TakesFrom(program, rounds, row, callee, fact)
  {
    if Held(program, rounds, row, fact) {
      HeldLonger(program, rounds, rounds + 1, row, fact);
    } else if Held(program, rounds + 1, row, fact) {
      NextRoundComesFrom(program, rounds, row, fact);
    } else if exists callee: nat :: callee in program.reaches[row] && TakesFrom(program, rounds, row, callee, fact) {
      var callee: nat :| callee in program.reaches[row] && TakesFrom(program, rounds, row, callee, fact);
      TakenIsHeldNext(program, rounds, row, callee, fact);
    }
  }

  lemma HeldAtStart(program: Program, row: nat, fact: Fact)
    requires WellFormedProgram(program) && row < |program.own|
    ensures Held(program, 0, row, fact) <==> Has(program.own[row], fact)
  {
    if Has(program.own[row], fact) {
      assert Chain(program, [row]) && [row][0] == row && Arrival([row]) == 0 && [row][|[row]| - 1] == row;
    }
  }

  // ---- The rounds -------------------------------------------------------------------------------

  /** `failure` says exactly what `row` holds after `rounds` rounds. */
  ghost predicate SaysHeld(program: Program, rounds: nat, row: nat, failure: Failure)
    requires WellFormedProgram(program)
  {
    forall fact :: Has(failure, fact) <==> Held(program, rounds, row, fact)
  }

  /** Part way through round `rounds + 1`: the rows below `bound` are done with it. */
  ghost predicate MidRound(program: Program, rounds: nat, bound: nat, failures: seq<Failure>)
    requires WellFormedProgram(program)
  {
    && |failures| == |program.own|
    && forall row :: 0 <= row < |failures| ==>
         SaysHeld(program, if row < bound then rounds + 1 else rounds, row, failures[row])
  }

  ghost predicate SomeCalleeHas(failures: seq<Failure>, callees: seq<FunctionId>, fact: Fact) {
    exists callee: nat :: callee in callees && callee < |failures| && Has(failures[callee], fact)
  }

  /** A failure together with what some callees fail with. */
  ghost predicate Carries(failures: seq<Failure>, row: nat, callees: seq<FunctionId>, carried: Failure)
    requires row < |failures|
  {
    forall fact :: Has(carried, fact) <==> Has(failures[row], fact) || SomeCalleeHas(failures, callees, fact)
  }

  method CarryFrom(failures: seq<Failure>, row: nat, callees: seq<FunctionId>) returns (carried: Failure)
    requires row < |failures|
    ensures Carries(failures, row, callees, carried)
  {
    carried := failures[row];
    for i := 0 to |callees|
      invariant Carries(failures, row, callees[..i], carried)
    {
      ghost var before := carried;
      if callees[i] < |failures| {
        carried := Absorb(carried, failures[callees[i]]);
      }
      assert callees[..i + 1] == callees[..i] + [callees[i]];
      forall fact
        ensures SomeCalleeHas(failures, callees[..i + 1], fact) <==>
                  || SomeCalleeHas(failures, callees[..i], fact)
                  || (callees[i] < |failures| && Has(failures[callees[i]], fact))
      {
        SomeCalleeHasNext(failures, callees[..i], callees[i], fact);
      }
    }
    assert callees[..|callees|] == callees;
  }

  lemma SomeCalleeHasNext(failures: seq<Failure>, callees: seq<FunctionId>, callee: FunctionId, fact: Fact)
    ensures SomeCalleeHas(failures, callees + [callee], fact) <==>
              SomeCalleeHas(failures, callees, fact) || (callee < |failures| && Has(failures[callee], fact))
  {
    assert forall c :: c in callees + [callee] <==> c in callees || c == callee;
    if callee < |failures| && Has(failures[callee], fact) {
      assert callee in callees + [callee];
    }
  }

  lemma CarriedIsNextRound(program: Program, rounds: nat, row: nat, failures: seq<Failure>, carried: Failure)
    requires WellFormedProgram(program) && row < |program.own|
    requires MidRound(program, rounds, row, failures)
    requires Carries(failures, row, program.reaches[row], carried)
    ensures SaysHeld(program, rounds + 1, row, carried)
  {
    var callees := program.reaches[row];
    forall fact
      ensures Has(carried, fact) <==> Held(program, rounds + 1, row, fact)
    {
      HeldNextRound(program, rounds, row, fact);
      assert SaysHeld(program, rounds, row, failures[row]);
      if SomeCalleeHas(failures, callees, fact) {
        var callee: nat :| callee in callees && callee < |failures| && Has(failures[callee], fact);
        assert SaysHeld(program, if callee < row then rounds + 1 else rounds, callee, failures[callee]);
        assert TakesFrom(program, rounds, row, callee, fact);
      }
      if exists callee: nat :: callee in callees && TakesFrom(program, rounds, row, callee, fact) {
        var callee: nat :| callee in callees && TakesFrom(program, rounds, row, callee, fact);
        assert SaysHeld(program, if callee < row then rounds + 1 else rounds, callee, failures[callee]);
      }
    }
  }

  lemma MidRoundNext(program: Program, rounds: nat, row: nat, failures: seq<Failure>, carried: Failure)
    requires WellFormedProgram(program) && row < |program.own|
    requires MidRound(program, rounds, row, failures) && SaysHeld(program, rounds + 1, row, carried)
    ensures MidRound(program, rounds, row + 1, failures[row := carried])
  {
    var after := failures[row := carried];
    forall r | 0 <= r < |after|
      ensures SaysHeld(program, if r < row + 1 then rounds + 1 else rounds, r, after[r])
    {
      if r != row {
        assert SaysHeld(program, if r < row then rounds + 1 else rounds, r, failures[r]);
      }
    }
  }

  /** One round, in place and in row order. */
  method RunRound(program: Program, failures: array<Failure>, ghost rounds: nat) returns (changed: bool)
    requires WellFormedProgram(program) && MidRound(program, rounds, 0, failures[..])
    modifies failures
    ensures MidRound(program, rounds, |program.own|, failures[..])
    ensures !changed <==> failures[..] == old(failures[..])
  {
    changed := false;
    for row := 0 to |program.own|
      invariant MidRound(program, rounds, row, failures[..])
      invariant !changed <==> failures[..] == old(failures[..])
      invariant forall r :: row <= r < failures.Length ==> failures[r] == old(failures[r])
    {
      ghost var before := failures[..];
      var carried := CarryFrom(failures[..], row, program.reaches[row]);
      CarriedIsNextRound(program, rounds, row, failures[..], carried);
      MidRoundNext(program, rounds, row, failures[..], carried);
      if failures[row] != carried {
        assert failures[..][row] == old(failures[..])[row];
        failures[row] := carried;
        changed := true;
        assert failures[..] == before[row := carried];
        assert failures[..][row] != old(failures[..])[row];
      } else {
        assert before[row := carried] == before;
      }
    }
  }

  /** Nothing is held after `later` rounds that was not held after `earlier` ones. */
  ghost predicate NothingNew(program: Program, earlier: nat, later: nat)
    requires WellFormedProgram(program)
  {
    forall row, fact :: 0 <= row < |program.own| && Held(program, later, row, fact) ==>
      Held(program, earlier, row, fact)
  }

  ghost predicate Settled(program: Program, rounds: nat)
    requires WellFormedProgram(program)
  {
    NothingNew(program, rounds, rounds + 1)
  }

  lemma {:induction false} SettledRow(program: Program, rounds: nat, row: nat, fact: Fact)
    requires WellFormedProgram(program) && Settled(program, rounds) && row < |program.own|
    requires Held(program, rounds + 2, row, fact)
    ensures Held(program, rounds + 1, row, fact)
    decreases row
  {
    HeldNextRound(program, rounds + 1, row, fact);
    if !Held(program, rounds + 1, row, fact) {
      var callee: nat :| callee in program.reaches[row] && TakesFrom(program, rounds + 1, row, callee, fact);
      if callee < row {
        SettledRow(program, rounds, callee, fact);
      }
      HeldNextRound(program, rounds, row, fact);
      assert TakesFrom(program, rounds, row, callee, fact);
    }
  }

  lemma SettledNext(program: Program, rounds: nat)
    requires WellFormedProgram(program) && Settled(program, rounds)
    ensures Settled(program, rounds + 1)
  {
    var later := rounds + 2;
    forall row, fact | 0 <= row < |program.own| && Held(program, later, row, fact)
      ensures Held(program, rounds + 1, row, fact)
    {
      SettledRow(program, rounds, row, fact);
    }
    assert NothingNew(program, rounds + 1, later);
  }

  /** Once a round brings nothing new, no later one does. */
  lemma {:induction false} SettledStays(program: Program, rounds: nat, later: nat)
    requires WellFormedProgram(program) && Settled(program, rounds) && rounds <= later
    ensures NothingNew(program, rounds, later)
    decreases later - rounds
  {
    if later > rounds {
      SettledNext(program, rounds);
      SettledStays(program, rounds + 1, later);
    }
  }

  lemma {:induction false} SettledLater(program: Program, rounds: nat, later: nat)
    requires WellFormedProgram(program) && Settled(program, rounds) && rounds <= later
    ensures Settled(program, later)
    decreases later - rounds
  {
    if rounds < later {
      SettledNext(program, rounds);
      SettledLater(program, rounds + 1, later);
    }
  }

  function RoundLimit(functions: nat): nat {
    Min(functions, 64)
  }

  /** `failures` is what every function holds when the rounds are over. */
  ghost predicate SaysAllHeld(program: Program, failures: seq<Failure>)
    requires WellFormedProgram(program)
  {
    && |failures| == |program.own|
    && forall row :: 0 <= row < |failures| ==> SaysHeld(program, RoundLimit(|program.own|), row, failures[row])
  }

  /** Propagates until nothing changes or the cap is reached. Stopping before the cap means the rounds have settled. */
  method Propagate(program: Program) returns (failures: seq<Failure>, ghost rounds: nat)
    requires WellFormedProgram(program)
    ensures SaysAllHeld(program, failures)
    ensures rounds <= RoundLimit(|program.own|)
    ensures rounds < RoundLimit(|program.own|) ==> Settled(program, rounds)
    ensures rounds < RoundLimit(|program.own|) ==> Settled(program, RoundLimit(|program.own|))
  {
    var count := |program.own|;
    var current := new Failure[count](i requires 0 <= i < count => program.own[i]);
    StartsWithOwn(program, current[..]);
    for round := 0 to RoundLimit(count)
      invariant MidRound(program, round, 0, current[..])
    {
      ghost var before := current[..];
      var changed := RunRound(program, current, round);
      if !changed {
        UnchangedIsSettled(program, round, before);
        failures, rounds := current[..], round;
        SettledIsLimit(program, round, failures);
        SettledLater(program, round, RoundLimit(count));
        return;
      }
      NextRoundStarts(program, round, current[..]);
    }
    failures, rounds := current[..], RoundLimit(count);
  }

  lemma StartsWithOwn(program: Program, failures: seq<Failure>)
    requires WellFormedProgram(program) && failures == program.own
    ensures MidRound(program, 0, 0, failures)
  {
    forall row | 0 <= row < |failures|
      ensures SaysHeld(program, 0, row, failures[row])
    {
      forall fact
        ensures Has(failures[row], fact) <==> Held(program, 0, row, fact)
      {
        HeldAtStart(program, row, fact);
      }
    }
  }

  lemma NextRoundStarts(program: Program, rounds: nat, failures: seq<Failure>)
    requires WellFormedProgram(program) && MidRound(program, rounds, |program.own|, failures)
    ensures MidRound(program, rounds + 1, 0, failures)
  {
  }

  lemma UnchangedIsSettled(program: Program, rounds: nat, failures: seq<Failure>)
    requires WellFormedProgram(program)
    requires MidRound(program, rounds, 0, failures) && MidRound(program, rounds, |program.own|, failures)
    ensures Settled(program, rounds)
  {
    forall row, fact | 0 <= row < |program.own| && Held(program, rounds + 1, row, fact)
      ensures Held(program, rounds, row, fact)
    {
      assert SaysHeld(program, rounds, row, failures[row]);
      assert SaysHeld(program, rounds + 1, row, failures[row]);
    }
  }

  lemma SettledIsLimit(program: Program, rounds: nat, failures: seq<Failure>)
    requires WellFormedProgram(program) && Settled(program, rounds)
    requires rounds < RoundLimit(|program.own|) && MidRound(program, rounds, 0, failures)
    ensures SaysAllHeld(program, failures)
  {
    var limit := RoundLimit(|program.own|);
    SettledStays(program, rounds, limit);
    forall row | 0 <= row < |failures|
      ensures SaysHeld(program, limit, row, failures[row])
    {
      assert SaysHeld(program, rounds, row, failures[row]);
      forall fact
        ensures Held(program, limit, row, fact) <==> Held(program, rounds, row, fact)
      {
        if Held(program, rounds, row, fact) {
          HeldLonger(program, rounds, limit, row, fact);
        }
      }
    }
  }

  // ---- What the cap costs -----------------------------------------------------------------------

  lemma {:induction false} ArrivalWithinHops(path: seq<nat>)
    requires |path| > 0
    ensures Arrival(path) <= |path| - 1
  {
    if |path| > 1 {
      ArrivalWithinHops(path[1..]);
    }
  }

  /** Everything owned within `rounds` hops is held, and nothing is held that no chain reaches. */
  lemma HeldBetweenHopsAndReach(program: Program, rounds: nat, row: nat, path: seq<nat>, fact: Fact)
    requires WellFormedProgram(program)
    ensures Chain(program, path) && path[0] == row && |path| - 1 <= rounds && Has(program.own[path[|path| - 1]], fact)
            ==> Held(program, rounds, row, fact)
    ensures Held(program, rounds, row, fact) ==> Reached(program, row, fact)
  {
    if |path| > 0 {
      ArrivalWithinHops(path);
    }
  }

  lemma {:induction false} RepeatFreeIsShort(path: seq<nat>, bound: nat)
    requires NoRepeats(path) && forall i :: 0 <= i < |path| ==> path[i] < bound
    ensures |path| <= bound
    decreases bound
  {
    if path != [] {
      var first := path[0];
      if i :| 0 <= i < |path| && path[i] == bound - 1 {
        RepeatFreeIsShort(path[..i] + path[i + 1..], bound - 1);
      } else {
        RepeatFreeIsShort(path, bound - 1);
      }
    }
  }

  lemma ChainWithoutLoop(program: Program, path: seq<nat>, i: nat, j: nat)
    requires WellFormedProgram(program) && Chain(program, path)
    requires i < j < |path| && path[i] == path[j]
    ensures var shorter := path[..i] + path[j..];
            && Chain(program, shorter) && shorter[0] == path[0]
            && shorter[|shorter| - 1] == path[|path| - 1] && |shorter| < |path|
  {
    var shorter := path[..i] + path[j..];
    forall k | 0 < k < |shorter|
      ensures shorter[k] in program.reaches[shorter[k - 1]]
    {
      if k < i {
        assert path[k] in program.reaches[path[k - 1]];
      } else if k == i {
        assert path[i] in program.reaches[path[i - 1]];
      } else {
        assert path[k - i + j] in program.reaches[path[k - i + j - 1]];
      }
    }
  }

  /** Whatever a chain reaches, a chain no longer than there are functions reaches too. */
  lemma {:induction false} ShortChain(program: Program, path: seq<nat>) returns (short: seq<nat>)
    requires WellFormedProgram(program) && Chain(program, path)
    ensures Chain(program, short) && short[0] == path[0] && short[|short| - 1] == path[|path| - 1]
    ensures |short| <= |program.own|
    decreases |path|
  {
    if NoRepeats(path) {
      RepeatFreeIsShort(path, |program.own|);
      short := path;
    } else {
      var i, j :| 0 <= i < j < |path| && path[i] == path[j];
      ChainWithoutLoop(program, path, i, j);
      short := ShortChain(program, path[..i] + path[j..]);
    }
  }

  /** What the chains of calls reach is held when the rounds are over; nothing else ever is. */
  ghost predicate ExactFor(program: Program)
    requires WellFormedProgram(program)
  {
    forall row: nat, fact :: Reached(program, row, fact) ==> Held(program, RoundLimit(|program.own|), row, fact)
  }

  /** Up to 65 functions, the rounds compute exactly what the chains of calls reach. */
  lemma SmallProgramsAreExact(program: Program)
    requires WellFormedProgram(program) && |program.own| <= 65
    ensures ExactFor(program)
  {
    forall row: nat, fact | Reached(program, row, fact)
      ensures Held(program, RoundLimit(|program.own|), row, fact)
    {
      var path :| Chain(program, path) && path[0] == row && Has(program.own[path[|path| - 1]], fact);
      var short := ShortChain(program, path);
      HeldBetweenHopsAndReach(program, RoundLimit(|program.own|), row, short, fact);
    }
  }

  /** The cap costs a program nothing exactly when its rounds have settled by then. */
  lemma ExactExactlyWhenSettled(program: Program)
    requires WellFormedProgram(program)
    ensures ExactFor(program) <==> Settled(program, RoundLimit(|program.own|))
  {
    var limit := RoundLimit(|program.own|);
    if ExactFor(program) {
      forall row, fact | 0 <= row < |program.own| && Held(program, limit + 1, row, fact)
        ensures Held(program, limit, row, fact)
      {
        HeldBetweenHopsAndReach(program, limit + 1, row, [], fact);
      }
    }
    if Settled(program, limit) {
      forall row: nat, fact | Reached(program, row, fact)
        ensures Held(program, limit, row, fact)
      {
        var path :| Chain(program, path) && path[0] == row && Has(program.own[path[|path| - 1]], fact);
        var later := limit + |path|;
        HeldBetweenHopsAndReach(program, later, row, path, fact);
        SettledStays(program, limit, later);
      }
    }
  }

  predicate Within(less: Failure, more: Failure) {
    less.sets <= more.sets && (less.allocates ==> more.allocates) && (less.unreadable ==> more.unreadable)
  }

  lemma WithinIsAllFacts(less: Failure, more: Failure)
    ensures Within(less, more) <==> forall fact :: Has(less, fact) ==> Has(more, fact)
  {
    if forall fact :: Has(less, fact) ==> Has(more, fact) {
      assert Has(less, Allocates) ==> Has(more, Allocates);
      assert Has(less, Unreadable) ==> Has(more, Unreadable);
      forall id | id in less.sets
        ensures id in more.sets
      {
        assert Has(less, InSet(id)) ==> Has(more, InSet(id));
      }
    }
  }

  /** No function lacks anything one of its callees has: what a compiler asks of the result, and easy to check. */
  predicate IsClosed(program: Program, failures: seq<Failure>)
    requires |failures| == |program.reaches|
  {
    forall row :: 0 <= row < |failures| ==> HasAllOf(failures, row, program.reaches[row])
  }

  predicate HasAllOf(failures: seq<Failure>, row: nat, callees: seq<FunctionId>)
    requires row < |failures|
  {
    forall callee :: callee in callees && callee < |failures| ==> Within(failures[callee], failures[row])
  }

  /** What a settled program's callee holds, its caller holds. */
  lemma SettledCallersHold(program: Program, rounds: nat, row: nat, callee: nat, fact: Fact)
    requires WellFormedProgram(program) && Settled(program, rounds)
    requires row < |program.own| && callee in program.reaches[row] && Held(program, rounds, callee, fact)
    ensures Held(program, rounds, row, fact)
  {
    if callee < row {
      HeldLonger(program, rounds, rounds + 1, callee, fact);
    }
    assert TakesFrom(program, rounds, row, callee, fact);
    HeldNextRound(program, rounds, row, fact);
  }

  /** Where every caller holds what its callees hold, everything a chain reaches is held. */
  lemma {:induction false} ClosedHoldsChain(program: Program, failures: seq<Failure>, path: seq<nat>, fact: Fact)
    requires WellFormedProgram(program) && SaysAllHeld(program, failures) && IsClosed(program, failures)
    requires Chain(program, path) && Has(program.own[path[|path| - 1]], fact)
    ensures Has(failures[path[0]], fact)
    decreases |path|
  {
    var row := path[0];
    if |path| == 1 {
      HeldAtStart(program, row, fact);
      HeldLonger(program, 0, RoundLimit(|program.own|), row, fact);
      assert SaysHeld(program, RoundLimit(|program.own|), row, failures[row]);
    } else {
      ChainTail(program, path);
      ClosedHoldsChain(program, failures, path[1..], fact);
      assert path[1] in program.reaches[row];
      assert HasAllOf(failures, row, program.reaches[row]);
      WithinIsAllFacts(failures[path[1]], failures[row]);
    }
  }

  /** The result says by itself whether the cap cost anything. */
  lemma ClosedExactlyWhenExact(program: Program, failures: seq<Failure>)
    requires WellFormedProgram(program) && SaysAllHeld(program, failures)
    ensures IsClosed(program, failures) <==> ExactFor(program)
  {
    var limit := RoundLimit(|program.own|);
    if IsClosed(program, failures) {
      forall row: nat, fact | Reached(program, row, fact)
        ensures Held(program, limit, row, fact)
      {
        var path :| Chain(program, path) && path[0] == row && Has(program.own[path[|path| - 1]], fact);
        ClosedHoldsChain(program, failures, path, fact);
        assert SaysHeld(program, limit, row, failures[row]);
      }
    }
    if ExactFor(program) {
      ExactExactlyWhenSettled(program);
      forall row | 0 <= row < |failures|
        ensures HasAllOf(failures, row, program.reaches[row])
      {
        forall callee | callee in program.reaches[row] && callee < |failures|
          ensures Within(failures[callee], failures[row])
        {
          SettledResultsCarry(program, failures, row, callee);
        }
      }
    }
  }

  lemma SettledResultsCarry(program: Program, failures: seq<Failure>, row: nat, callee: nat)
    requires WellFormedProgram(program) && SaysAllHeld(program, failures)
    requires Settled(program, RoundLimit(|program.own|))
    requires row < |failures| && callee in program.reaches[row] && callee < |failures|
    ensures Within(failures[callee], failures[row])
  {
    var limit := RoundLimit(|program.own|);
    assert SaysHeld(program, limit, row, failures[row]) && SaysHeld(program, limit, callee, failures[callee]);
    forall fact | Has(failures[callee], fact)
      ensures Has(failures[row], fact)
    {
      SettledCallersHold(program, limit, row, callee, fact);
    }
    WithinIsAllFacts(failures[callee], failures[row]);
  }

  /** Whether the cap costs a program anything, found by running the rounds and looking at what they leave. */
  method CapIsHarmless(program: Program) returns (harmless: bool)
    requires WellFormedProgram(program)
    ensures harmless <==> ExactFor(program)
  {
    var failures, _ := Propagate(program);
    ClosedExactlyWhenExact(program, failures);
    harmless := IsClosed(program, failures);
  }

  // ---- The cap, whatever the functions own ----------------------------------------------------------

  /** Some chain with the same two ends arrives before the cap. */
  ghost predicate HasQuick(program: Program, path: seq<nat>)
    requires WellFormedProgram(program) && |path| > 0
  {
    exists quick :: Chain(program, quick) && quick[0] == path[0] && quick[|quick| - 1] == path[|path| - 1]
                    && Arrival(quick) <= RoundLimit(|program.own|)
  }

  ghost predicate ArrivesInTime(program: Program)
    requires WellFormedProgram(program)
  {
    forall path :: Chain(program, path) ==> HasQuick(program, path)
  }

  /** The same calls, each function failing with a set that is its alone. */
  function Labelled(program: Program): (labelled: Program)
    requires |program.own| <= 0x1_0000_0000
    ensures WellFormedProgram(program) ==> WellFormedProgram(labelled)
  {
    program.(own := seq(|program.own|, i requires 0 <= i < |program.own| => Failure({i as u32}, false, false)))
  }

  /** Owners that differ cannot stand in for one another, so the labelled calls decide for every choice of owners. */
  lemma LabelsDecide(program: Program)
    requires WellFormedProgram(program) && |program.own| <= 0x1_0000_0000
    ensures ExactFor(Labelled(program)) <==> ArrivesInTime(program)
  {
    var labelled := Labelled(program);
    if ArrivesInTime(program) {
      InTimeIsExact(program, labelled.own);
    }
    if ExactFor(labelled) {
      forall path | Chain(program, path)
        ensures HasQuick(program, path)
      {
        LabelArrives(program, path);
      }
    }
  }

  lemma LabelArrives(program: Program, path: seq<nat>)
    requires WellFormedProgram(program) && |program.own| <= 0x1_0000_0000
    requires ExactFor(Labelled(program)) && Chain(program, path)
    ensures HasQuick(program, path)
  {
    var labelled, last := Labelled(program), path[|path| - 1];
    assert Chain(labelled, path) && Has(labelled.own[last], InSet(last));
    assert Reached(labelled, path[0], InSet(last));
    var quick :| Chain(labelled, quick) && quick[0] == path[0] && Arrival(quick) <= RoundLimit(|program.own|)
                 && Has(labelled.own[quick[|quick| - 1]], InSet(last));
    assert Chain(program, quick);
  }

  /** The cap loses nothing, whatever each function owns, exactly when every chain has one that arrives in time. */
  lemma CapIsHarmlessExactlyWhen(program: Program)
    requires WellFormedProgram(program)
    ensures ArrivesInTime(program) <==>
              forall own: seq<Failure> :: |own| == |program.reaches| ==> ExactFor(program.(own := own))
  {
    if ArrivesInTime(program) {
      forall own: seq<Failure> | |own| == |program.reaches|
        ensures ExactFor(program.(own := own))
      {
        InTimeIsExact(program, own);
      }
    }
    if forall own: seq<Failure> :: |own| == |program.reaches| ==> ExactFor(program.(own := own)) {
      forall path | Chain(program, path)
        ensures HasQuick(program, path)
      {
        LoneOwner(program, path);
      }
    }
  }

  lemma InTimeIsExact(program: Program, own: seq<Failure>)
    requires WellFormedProgram(program) && ArrivesInTime(program) && |own| == |program.reaches|
    ensures ExactFor(program.(own := own))
  {
    var other := program.(own := own);
    forall row, fact | Reached(other, row, fact)
      ensures Held(other, RoundLimit(|own|), row, fact)
    {
      var path :| Chain(other, path) && path[0] == row && Has(own[path[|path| - 1]], fact);
      assert Chain(program, path);
      QuickHolds(program, other, path, row, fact);
    }
  }

  lemma QuickHolds(program: Program, other: Program, path: seq<nat>, row: nat, fact: Fact)
    requires WellFormedProgram(program) && other.reaches == program.reaches && |other.own| == |program.own|
    requires Chain(program, path) && HasQuick(program, path)
    requires path[0] == row && Has(other.own[path[|path| - 1]], fact)
    ensures Held(other, RoundLimit(|other.own|), row, fact)
  {
    var quick :| Chain(program, quick) && quick[0] == path[0] && quick[|quick| - 1] == path[|path| - 1]
                 && Arrival(quick) <= RoundLimit(|program.own|);
    assert Chain(other, quick);
  }

  /** Let only the end of a chain fail: the head can only hold that through a chain that arrives in time. */
  lemma LoneOwner(program: Program, path: seq<nat>)
    requires WellFormedProgram(program) && Chain(program, path)
    requires forall own: seq<Failure> :: |own| == |program.reaches| ==> ExactFor(program.(own := own))
    ensures HasQuick(program, path)
  {
    var last := path[|path| - 1];
    var own: seq<Failure> := seq(|program.own|, i => if i == last then Failure({7}, false, false) else NOTHING);
    var other := program.(own := own);
    assert ExactFor(other);
    assert Chain(other, path) && Has(own[last], InSet(7));
    assert Reached(other, path[0], InSet(7));
    var quick :| Chain(other, quick) && quick[0] == path[0] && Arrival(quick) <= RoundLimit(|own|)
                 && Has(own[quick[|quick| - 1]], InSet(7));
    assert Chain(program, quick);
  }

  /** Whether the calls alone rule out any loss, whatever the functions own. */
  method CapIsHarmlessForAll(program: Program) returns (harmless: bool)
    requires WellFormedProgram(program) && |program.own| <= 0x1_0000_0000
    ensures harmless <==> forall own: seq<Failure> :: |own| == |program.reaches| ==> ExactFor(program.(own := own))
  {
    LabelsDecide(program);
    CapIsHarmlessExactlyWhen(program);
    harmless := CapIsHarmless(Labelled(program));
  }

  // ---- A program the cap costs something ------------------------------------------------------------

  /** Function `i` calls function `i + 1`, and only the last of them fails by itself, with the set at row zero. */
  function Staircase(steps: nat): (program: Program)
    requires steps < NO_INDEX
    ensures WellFormedProgram(program) && |program.own| == steps + 1
  {
    Program(
      seq(steps + 1, i requires 0 <= i <= steps => if i == steps then Failure({0}, false, false) else NOTHING),
      seq(steps + 1, i requires 0 <= i <= steps => if i == steps then [] else [i + 1 as FunctionId]))
  }

  lemma {:induction false} StaircaseChain(steps: nat, path: seq<nat>)
    requires steps < NO_INDEX && Chain(Staircase(steps), path)
    ensures path[|path| - 1] == path[0] + |path| - 1 && Arrival(path) == |path| - 1
  {
    if |path| > 1 {
      assert path[1] in Staircase(steps).reaches[path[0]];
      assert path[1] == path[0] + 1;
      ChainTail(Staircase(steps), path);
      StaircaseChain(steps, path[1..]);
    }
  }

  /** Each step of the staircase reaches the failure at the end of it, and holds it once as many rounds have passed. */
  lemma StaircaseHolds(steps: nat, rounds: nat, row: nat, fact: Fact)
    requires steps < NO_INDEX && row <= steps
    ensures Reached(Staircase(steps), row, fact) <==> fact == InSet(0)
    ensures Held(Staircase(steps), rounds, row, fact) <==> fact == InSet(0) && steps - row <= rounds
  {
    var program := Staircase(steps);
    var path: seq<nat> := seq(steps - row + 1, i requires 0 <= i => row + i);
    assert Chain(program, path) && path[0] == row && path[|path| - 1] == steps;
    StaircaseChain(steps, path);
    assert Has(program.own[steps], fact) <==> fact == InSet(0);
    if Held(program, rounds, row, fact) {
      var short :| Chain(program, short) && short[0] == row && Arrival(short) <= rounds
                   && Has(program.own[short[|short| - 1]], fact);
      StaircaseChain(steps, short);
      assert short[|short| - 1] == steps;
    }
    if Reached(program, row, fact) {
      var any :| Chain(program, any) && any[0] == row && Has(program.own[any[|any| - 1]], fact);
      assert any[|any| - 1] == steps;
    }
  }

  /** With 66 functions in a row the cap leaves the first one without the failure it reaches. */
  lemma CapLosesAFailure()
    ensures Reached(Staircase(65), 0, InSet(0))
    ensures !Held(Staircase(65), RoundLimit(|Staircase(65).own|), 0, InSet(0))
  {
    StaircaseHolds(65, RoundLimit(66), 0, InSet(0));
  }

  /** A staircase loses nothing to the cap exactly when it has at most 65 functions. */
  lemma StaircaseIsExactExactlyWhen(steps: nat)
    requires steps < NO_INDEX
    ensures ExactFor(Staircase(steps)) <==> steps + 1 <= 65
  {
    var program := Staircase(steps);
    if steps + 1 <= 65 {
      SmallProgramsAreExact(program);
    } else {
      StaircaseHolds(steps, RoundLimit(steps + 1), 0, InSet(0));
    }
  }

  /** Tables with one name, one type, and one error set of one member. */
  function OneErrorSet(): Tables {
    EmptyTables().(
      strings := Strings(Ascii("e"), [0, 1]),
      types := Types([Void], [NO_INDEX], [0], [ROOT_MODULE], [NO_INDEX], [0], [0], [0], [0]),
      structs := Structs([0], [ROOT_MODULE], [0], [0], [1], [0], [0], [0], [NO_INDEX], [ErrorSet]),
      fields := Fields([0], [0], [0], [0]))
  }

  /** Tables of such a program: one call per step, and the one error set there is declared on the last function. */
  function StaircaseTables(steps: nat): Tables
    requires steps < NO_INDEX
  {
    var n := steps + 1;
    OneErrorSet().(
      functions := Functions(
        seq(n, _ => 0 as u32), seq(n, _ => ROOT_MODULE), seq(n, _ => NO_INDEX), seq(n, _ => 0 as u32),
        seq(n, _ => 0 as u32), seq(n, _ => NO_INDEX),
        seq(n, i requires 0 <= i < n => if i == steps then 0 as u32 else NO_INDEX),
        seq(n, _ => FUNCTION_FLAG_FALLIBLE), seq(n, _ => 0 as u32), seq(n, _ => NO_INDEX)),
      calls := Calls(
        seq(steps, i requires 0 <= i < steps => i as u32), seq(steps, i requires 0 <= i < steps => i + 1 as u32)))
  }

  lemma OneErrorSetIsSound()
    ensures Sound(OneErrorSet().strings) && StringCount(OneErrorSet().strings) == 1
  {
  }

  lemma StaircaseHandlesHold(steps: nat)
    requires steps < NO_INDEX
    ensures var tables := StaircaseTables(steps);
            TypeHandlesHold(tables) && DeclarationHandlesHold(tables) && FlowHandlesHold(tables)
  {
    OneErrorSetIsSound();
  }

  lemma StaircaseRangesHold(steps: nat)
    requires steps < NO_INDEX
    ensures var tables := StaircaseTables(steps);
            FieldRangesHold(tables) && ParameterRangesHold(tables) && ModuleRangesHold(tables)
  {
    var tables := StaircaseTables(steps);
    assert EndsAtNext(tables.structs.fieldStart, tables.structs.fieldCount, 1, 0);
    assert EndsAtNext(tables.modules.unresolvedStart, tables.modules.unresolvedCount, 0, 0);
  }

  /** The validator lets these tables through. */
  lemma StaircasePasses(steps: nat)
    requires steps < NO_INDEX
    ensures Passes(StaircaseTables(steps))
  {
    OneErrorSetIsSound();
    StaircaseHandlesHold(steps);
    StaircaseRangesHold(steps);
  }

  lemma {:induction false} StaircaseCallees(steps: nat, row: nat, bound: nat)
    requires steps < NO_INDEX && bound <= steps
    ensures WithCallees(StaircaseTables(steps), row, [], bound)
         == if row < bound then [(row + 1) as FunctionId] else []
  {
    if bound > 0 {
      StaircaseCallees(steps, row, bound - 1);
    }
  }

  /** The tables are read as the staircase: nothing in a body, one call each, one declared set. */
  lemma StaircaseTablesMakeIt(steps: nat, readings: seq<BodyReading>)
    requires steps < NO_INDEX && |readings| == steps + 1
    requires forall row :: 0 <= row < |readings| ==> readings[row] == BodyReading(NOTHING, [])
    ensures ProgramFrom(StaircaseTables(steps), readings) == Staircase(steps)
  {
    var tables, program := StaircaseTables(steps), ProgramFrom(StaircaseTables(steps), readings);
    forall row | 0 <= row < |readings|
      ensures program.own[row] == Staircase(steps).own[row] && program.reaches[row] == Staircase(steps).reaches[row]
    {
      StaircaseRow(steps, row);
    }
    assert program.own == Staircase(steps).own && program.reaches == Staircase(steps).reaches;
  }

  lemma StaircaseRow(steps: nat, row: nat)
    requires steps < NO_INDEX && row <= steps
    ensures OwnOf(StaircaseTables(steps), row, BodyReading(NOTHING, [])) == Staircase(steps).own[row]
    ensures ReachesOf(StaircaseTables(steps), row, BodyReading(NOTHING, [])) == Staircase(steps).reaches[row]
  {
    StaircaseCallees(steps, row, steps);
  }
}
