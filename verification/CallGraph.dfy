/** The call table as compressed sparse rows, and the search over it. */
module CallGraph {
  import opened Basics
  import opened Facts
  import opened Grouping

  datatype CallGraph = CallGraph(
    edgeStart: seq<u32>,
    edgeTarget: seq<FunctionId>,
    edgeCall: seq<CallId>)

  // ---- Building ---------------------------------------------------------------------------

  /** The call rows below `bound` whose caller is `caller` and whose callee is recorded, in order. */
  function CallsFrom(calls: Calls, caller: nat, bound: nat): seq<CallId>
    requires bound <= CallCount(calls) <= NO_INDEX
  {
    if bound == 0 then []
    else
      var row := bound - 1;
      CallsFrom(calls, caller, row)
        + (if calls.caller[row] == caller && row < |calls.callee| then [row] else [])
  }

  function Callees(calls: Calls, rows: seq<CallId>): seq<FunctionId>
    requires forall i :: 0 <= i < |rows| ==> rows[i] < |calls.callee|
  {
    seq(|rows|, i requires 0 <= i < |rows| => calls.callee[rows[i]])
  }

  lemma {:induction false} CallsFromIsInRange(calls: Calls, caller: nat, bound: nat)
    requires bound <= CallCount(calls) <= NO_INDEX
    ensures forall i :: 0 <= i < |CallsFrom(calls, caller, bound)| ==>
              CallsFrom(calls, caller, bound)[i] < |calls.callee|
    ensures forall row: nat :: row in CallsFrom(calls, caller, bound) <==>
              row < bound && calls.caller[row] == caller && row < |calls.callee|
  {
    if bound > 0 {
      CallsFromIsInRange(calls, caller, bound - 1);
    }
  }

  /** The ranges `edgeStart` cuts tile the edge columns. */
  ghost predicate WellFormed(graph: CallGraph, functions: nat) {
    && |graph.edgeStart| == functions + 1
    && |graph.edgeCall| == |graph.edgeTarget|
    && graph.edgeStart[0] == 0 && graph.edgeStart[functions] == |graph.edgeTarget|
    && forall caller :: 0 <= caller < functions ==> RangeFits(graph, caller)
  }

  ghost predicate RangeFits(graph: CallGraph, caller: nat) {
    && caller + 1 < |graph.edgeStart|
    && graph.edgeStart[caller] <= graph.edgeStart[caller + 1] <= |graph.edgeTarget| == |graph.edgeCall|
  }

  /** The range of `caller` holds exactly its calls, in the order the table has them. */
  ghost predicate HoldsCallsOf(graph: CallGraph, calls: Calls, caller: nat)
    requires CallCount(calls) <= NO_INDEX
    requires RangeFits(graph, caller)
  {
    CallsFromIsInRange(calls, caller, CallCount(calls));
    var rows := CallsFrom(calls, caller, CallCount(calls));
    && graph.edgeCall[graph.edgeStart[caller]..graph.edgeStart[caller + 1]] == rows
    && graph.edgeTarget[graph.edgeStart[caller]..graph.edgeStart[caller + 1]] == Callees(calls, rows)
  }

  ghost predicate GraphOf(graph: CallGraph, tables: Tables)
    requires CallCount(tables.calls) <= NO_INDEX
  {
    && WellFormed(graph, FunctionCount(tables.functions))
    && forall caller :: 0 <= caller < FunctionCount(tables.functions) ==> HoldsCallsOf(graph, tables.calls, caller)
  }

  function Edges(calls: Calls, functions: nat, bound: nat): (r: seq<(nat, (FunctionId, CallId))>)
    requires bound <= CallCount(calls) <= NO_INDEX
    ensures |r| <= bound
    ensures forall i :: 0 <= i < |r| ==> r[i].0 < functions
  {
    if bound == 0 then []
    else
      var row := bound - 1;
      Edges(calls, functions, row)
        + (if row < |calls.callee| && calls.caller[row] < functions
           then [((calls.caller[row], (calls.callee[row], row)))] else [])
  }

  /** The same calls, each paired with its callee. */
  function PairsFrom(calls: Calls, caller: nat, bound: nat): seq<(FunctionId, CallId)>
    requires bound <= CallCount(calls) <= NO_INDEX
  {
    if bound == 0 then []
    else
      var row := bound - 1;
      PairsFrom(calls, caller, row)
        + (if calls.caller[row] == caller && row < |calls.callee| then [(calls.callee[row], row)] else [])
  }

  lemma {:induction false} BucketOfEdges(calls: Calls, functions: nat, bound: nat, caller: nat)
    requires bound <= CallCount(calls) <= NO_INDEX && caller < functions
    ensures Bucket(Edges(calls, functions, bound), caller) == PairsFrom(calls, caller, bound)
  {
    if bound > 0 {
      BucketOfEdges(calls, functions, bound - 1, caller);
      var edges, fewer := Edges(calls, functions, bound), Edges(calls, functions, bound - 1);
      if |edges| > |fewer| {
        assert edges[..|edges| - 1] == fewer;
      } else {
        assert edges == fewer;
      }
    }
  }

  lemma {:induction false} PairsUnzip(calls: Calls, caller: nat, bound: nat)
    requires bound <= CallCount(calls) <= NO_INDEX
    ensures var pairs, rows := PairsFrom(calls, caller, bound), CallsFrom(calls, caller, bound);
            |pairs| == |rows|
            && forall i :: 0 <= i < |rows| ==> rows[i] < |calls.callee| && pairs[i] == (calls.callee[rows[i]], rows[i])
  {
    if bound > 0 {
      PairsUnzip(calls, caller, bound - 1);
    }
  }

  lemma UnzippedGroupingIsGraph(tables: Tables, start: seq<u32>, grouped: seq<(FunctionId, CallId)>, graph: CallGraph)
    requires CallCount(tables.calls) <= NO_INDEX
    requires var functions := FunctionCount(tables.functions);
             IsGrouping(Edges(tables.calls, functions, CallCount(tables.calls)), functions, start, grouped)
    requires graph.edgeStart == start && |graph.edgeTarget| == |graph.edgeCall| == |grouped|
    requires forall i :: 0 <= i < |grouped| ==>
               graph.edgeTarget[i] == grouped[i].0 && graph.edgeCall[i] == grouped[i].1
    ensures GraphOf(graph, tables)
  {
    var functions := FunctionCount(tables.functions);
    forall caller | 0 <= caller < functions
      ensures RangeFits(graph, caller) && HoldsCallsOf(graph, tables.calls, caller)
    {
      assert Holds(Edges(tables.calls, functions, CallCount(tables.calls)), start, grouped, caller);
      UnzippedRangeHoldsCalls(tables.calls, functions, start, grouped, graph, caller);
    }
  }

  lemma UnzippedRangeHoldsCalls(
    calls: Calls, functions: nat, start: seq<u32>, grouped: seq<(FunctionId, CallId)>, graph: CallGraph, caller: nat)
    requires CallCount(calls) <= NO_INDEX && caller < functions && caller + 1 < |start|
    requires Holds(Edges(calls, functions, CallCount(calls)), start, grouped, caller)
    requires graph.edgeStart == start && |graph.edgeTarget| == |graph.edgeCall| == |grouped|
    requires forall i :: 0 <= i < |grouped| ==>
               graph.edgeTarget[i] == grouped[i].0 && graph.edgeCall[i] == grouped[i].1
    ensures RangeFits(graph, caller) && HoldsCallsOf(graph, calls, caller)
  {
    BucketOfEdges(calls, functions, CallCount(calls), caller);
    PairsUnzip(calls, caller, CallCount(calls));
    CallsFromIsInRange(calls, caller, CallCount(calls));
    var rows := CallsFrom(calls, caller, CallCount(calls));
    var slice := grouped[start[caller]..start[caller + 1]];
    assert slice == PairsFrom(calls, caller, CallCount(calls));
    forall i | 0 <= i < |rows|
      ensures graph.edgeCall[start[caller]..start[caller + 1]][i] == rows[i]
              && graph.edgeTarget[start[caller]..start[caller + 1]][i] == calls.callee[rows[i]]
    {
      assert slice[i] == (calls.callee[rows[i]], rows[i]);
    }
    assert graph.edgeCall[start[caller]..start[caller + 1]] == rows;
    assert graph.edgeTarget[start[caller]..start[caller + 1]] == Callees(calls, rows);
  }

  method BuildCallGraph(tables: Tables) returns (graph: CallGraph)
    requires CallCount(tables.calls) <= NO_INDEX
    ensures GraphOf(graph, tables)
  {
    var functions := FunctionCount(tables.functions);
    var calls := tables.calls;
    var edges: seq<(nat, (FunctionId, CallId))> := [];
    for row := 0 to CallCount(calls)
      invariant edges == Edges(calls, functions, row)
    {
      if row < |calls.callee| && calls.caller[row] < functions {
        edges := edges + [(calls.caller[row], (calls.callee[row], row))];
      }
    }
    var start, grouped := CountingSort(functions, edges, (NO_INDEX, NO_INDEX));
    var edgeTarget: seq<FunctionId> := seq(|grouped|, i requires 0 <= i < |grouped| => grouped[i].0);
    var edgeCall: seq<CallId> := seq(|grouped|, i requires 0 <= i < |grouped| => grouped[i].1);
    graph := CallGraph(start, edgeTarget, edgeCall);
    UnzippedGroupingIsGraph(tables, start, grouped, graph);
  }

  // ---- Reachability -------------------------------------------------------------------------

  /** The slots of the edges that leave `caller`, empty where it is not a function. */
  function EdgeRange(graph: CallGraph, caller: nat): Range {
    if caller + 1 >= |graph.edgeStart| then Range(0, 0)
    else Range(graph.edgeStart[caller], graph.edgeStart[caller + 1])
  }

  function FunctionsIn(graph: CallGraph): nat {
    if |graph.edgeStart| == 0 then 0 else |graph.edgeStart| - 1
  }

  ghost predicate Edge(graph: CallGraph, from: nat, to: nat) {
    var range := EdgeRange(graph, from);
    exists slot :: range.start <= slot < range.end && slot < |graph.edgeTarget| && graph.edgeTarget[slot] == to
  }

  /** A walk along edges whose steps after the first all land in `allowed`. */
  ghost predicate Walk(graph: CallGraph, allowed: set<nat>, path: seq<nat>) {
    && |path| > 0
    && forall i :: 0 < i < |path| ==> Edge(graph, path[i - 1], path[i]) && path[i] in allowed
  }

  ghost predicate WalkTo(graph: CallGraph, allowed: set<nat>, root: nat, target: nat) {
    exists path :: Walk(graph, allowed, path) && path[0] == root && path[|path| - 1] == target
  }

  lemma ExtendWalk(graph: CallGraph, allowed: set<nat>, root: nat, middle: nat, target: nat)
    requires WalkTo(graph, allowed, root, middle) && Edge(graph, middle, target) && target in allowed
    ensures WalkTo(graph, allowed, root, target)
  {
    var path :| Walk(graph, allowed, path) && path[0] == root && path[|path| - 1] == middle;
    var longer := path + [target];
    assert Walk(graph, allowed, longer) && longer[0] == root && longer[|longer| - 1] == target;
  }

  /** A set that holds the root and every allowed step out of itself holds every walk. */
  lemma {:induction false} ClosedSetHoldsWalk(graph: CallGraph, allowed: set<nat>, seen: set<nat>, path: seq<nat>)
    requires Walk(graph, allowed, path) && path[0] in seen
    requires forall from, to :: from in seen && to in allowed && Edge(graph, from, to) ==> to in seen
    ensures path[|path| - 1] in seen
  {
    if |path| > 1 {
      var shorter := path[..|path| - 1];
      ClosedSetHoldsWalk(graph, allowed, seen, shorter);
      assert Edge(graph, path[|path| - 2], path[|path| - 1]);
    }
  }

  /** What the search may newly stamp: functions the buffer covers and nothing has stamped yet. */
  ghost function Fresh(graph: CallGraph, stamp: seq<u32>, generation: u32): set<nat> {
    set v: nat | v < FunctionsIn(graph) && v < |stamp| && stamp[v] != generation
  }

  /** The stamps a search leaves: a walk over fresh functions is stamped, and nothing else changes. */
  ghost predicate IsMarked(graph: CallGraph, root: nat, before: seq<u32>, after: seq<u32>, generation: u32) {
    && |after| == |before|
    && forall v :: 0 <= v < |before| ==>
         after[v] == (if root < FunctionsIn(graph) && root < |before|
                         && WalkTo(graph, Fresh(graph, before, generation), root, v)
                      then generation else before[v])
  }

  /** Part way through a search: `seen` is stamped, and only `open` may still have unseen callees. */
  ghost predicate Searching(
    graph: CallGraph, root: nat, allowed: set<nat>, before: seq<u32>, after: seq<u32>, generation: u32,
    seen: set<nat>, open: set<nat>)
  {
    && |after| == |before|
    && root in seen && seen <= allowed + {root}
    && (forall v :: v in seen ==> v < |before| && WalkTo(graph, allowed, root, v))
    && (forall v :: 0 <= v < |before| ==> after[v] == if v in seen then generation else before[v])
    && (forall from, to :: from in seen && from !in open && to in allowed && Edge(graph, from, to) ==> to in seen)
  }

  lemma FinishedSearchIsMarked(
    graph: CallGraph, root: nat, before: seq<u32>, after: seq<u32>, generation: u32, seen: set<nat>)
    requires root < FunctionsIn(graph) && root < |before|
    requires Searching(graph, root, Fresh(graph, before, generation), before, after, generation, seen, {})
    ensures IsMarked(graph, root, before, after, generation)
    ensures forall v: nat :: v in seen <==> v < |before| && WalkTo(graph, Fresh(graph, before, generation), root, v)
  {
    var allowed := Fresh(graph, before, generation);
    forall v: nat | v < |before|
      ensures WalkTo(graph, allowed, root, v) <==> v in seen
    {
      if WalkTo(graph, allowed, root, v) {
        var path :| Walk(graph, allowed, path) && path[0] == root && path[|path| - 1] == v;
        ClosedSetHoldsWalk(graph, allowed, seen, path);
      }
    }
  }

  ghost function Queued(pending: seq<FunctionId>): set<nat> {
    set v | v in pending
  }

  lemma QueuedAppend(pending: seq<FunctionId>, more: seq<FunctionId>)
    ensures Queued(pending + more) == Queued(pending) + Queued(more)
  {
  }

  predicate NoRepeats(path: seq<nat>) {
    forall i, j :: 0 <= i < j < |path| ==> path[i] != path[j]
  }

  lemma NoRepeatsAppend(first: seq<FunctionId>, second: seq<FunctionId>)
    requires NoRepeats(first) && NoRepeats(second) && Queued(first) !! Queued(second)
    ensures NoRepeats(first + second)
  {
    assert forall i :: 0 <= i < |first| ==> first[i] in Queued(first);
    assert forall j :: 0 <= j < |second| ==> second[j] in Queued(second);
  }

  /** The first of each target the search may newly stamp, in the order of the edges. */
  function FreshTargets(graph: CallGraph, stamp: seq<u32>, generation: u32, targets: seq<FunctionId>)
    : (r: seq<FunctionId>)
    ensures NoRepeats(r)
    ensures forall v :: v in r <==>
              v in targets && v < FunctionsIn(graph) && v < |stamp| && stamp[v] != generation
  {
    if targets == [] then []
    else
      var last := |targets| - 1;
      var earlier, target := FreshTargets(graph, stamp, generation, targets[..last]), targets[last];
      assert forall v :: v in targets <==> v in targets[..last] || v == target;
      if target < FunctionsIn(graph) && target < |stamp| && stamp[target] != generation && target !in earlier then
        earlier + [target]
      else earlier
  }

  /** The buffer with a list of functions stamped. */
  ghost predicate IsStamped(before: seq<u32>, after: seq<u32>, generation: u32, stamped: seq<FunctionId>) {
    && |after| == |before|
    && forall v: nat :: v < |before| ==> after[v] == if v in stamped then generation else before[v]
  }

  /** The callees of one function, as the edges have them. */
  function TargetsOf(graph: CallGraph, current: FunctionId): (r: seq<FunctionId>)
    requires WellFormed(graph, FunctionsIn(graph))
    ensures var range := EdgeRange(graph, current);
            range.start <= range.end <= |graph.edgeTarget| && |r| == range.end - range.start
    ensures forall i :: 0 <= i < |r| ==> r[i] == graph.edgeTarget[EdgeRange(graph, current).start + i]
  {
    var range := EdgeRange(graph, current);
    assert current + 1 < |graph.edgeStart| ==> RangeFits(graph, current);
    graph.edgeTarget[range.start..range.end]
  }

  /** Part way along the edges of a function: `found` is what is new among the targets so far. */
  ghost predicate Visiting(
    graph: CallGraph, before: seq<u32>, stamp: seq<u32>, generation: u32, targets: seq<FunctionId>, i: nat,
    found: seq<FunctionId>)
  {
    i <= |targets| && found == FreshTargets(graph, before, generation, targets[..i])
    && IsStamped(before, stamp, generation, found)
  }

  /** A target that is no function, or stamped already, adds nothing; any other is stamped and found. */
  lemma VisitNext(
    graph: CallGraph, before: seq<u32>, stamp: seq<u32>, generation: u32, targets: seq<FunctionId>, i: nat,
    found: seq<FunctionId>)
    requires Visiting(graph, before, stamp, generation, targets, i, found) && i < |targets|
    ensures var target := targets[i];
            if target < FunctionsIn(graph) && target < |stamp| && stamp[target] != generation then
              Visiting(graph, before, stamp[target := generation], generation, targets, i + 1, found + [target])
            else Visiting(graph, before, stamp, generation, targets, i + 1, found)
  {
    assert targets[..i + 1][..i] == targets[..i];
  }

  /** Stamps and queues the callees of one function that nothing has stamped yet, each once, in edge order. */
  method VisitCallees(
    graph: CallGraph, current: FunctionId, stamp: array<u32>, generation: u32, pending: seq<FunctionId>)
    returns (pending': seq<FunctionId>)
    requires WellFormed(graph, FunctionsIn(graph))
    modifies stamp
    ensures var found := FreshTargets(graph, old(stamp[..]), generation, TargetsOf(graph, current));
            pending' == pending + found && IsStamped(old(stamp[..]), stamp[..], generation, found)
  {
    pending' := pending;
    var range := EdgeRange(graph, current);
    ghost var before, targets := stamp[..], TargetsOf(graph, current);
    ghost var found: seq<FunctionId> := [];
    assert targets[..0] == [];
    for slot := range.start to range.end
      invariant Visiting(graph, before, stamp[..], generation, targets, slot - range.start, found)
      invariant pending' == pending + found
    {
      var target := graph.edgeTarget[slot];
      assert targets[slot - range.start] == target;
      VisitNext(graph, before, stamp[..], generation, targets, slot - range.start, found);
      if target < FunctionsIn(graph) && target < stamp.Length && stamp[target] != generation {
        ghost var stamped := stamp[..][target := generation];
        stamp[target] := generation;
        assert stamp[..] == stamped;
        pending', found := pending' + [target], found + [target];
      }
    }
    assert targets[..range.end - range.start] == targets;
  }

  /** The search a visit carries on: its fresh callees are seen and open, and the function itself is closed. */
  lemma VisitKeepsSearching(
    graph: CallGraph, root: nat, before: seq<u32>, stamp: seq<u32>, after: seq<u32>, generation: u32,
    seen: set<nat>, open: set<nat>, current: FunctionId)
    requires WellFormed(graph, FunctionsIn(graph)) && current in seen
    requires Searching(graph, root, Fresh(graph, before, generation), before, stamp, generation, seen, open + {current})
    requires IsStamped(stamp, after, generation, FreshTargets(graph, stamp, generation, TargetsOf(graph, current)))
    ensures var found := Queued(FreshTargets(graph, stamp, generation, TargetsOf(graph, current)));
            && Searching(graph, root, Fresh(graph, before, generation), before, after, generation, seen + found,
                         open + found)
            && found !! seen
  {
    var allowed := Fresh(graph, before, generation);
    var targets := TargetsOf(graph, current);
    var list := FreshTargets(graph, stamp, generation, targets);
    var found := Queued(list);
    forall v | v in found
      ensures v in allowed && v !in seen && WalkTo(graph, allowed, root, v)
    {
      var i :| 0 <= i < |targets| && targets[i] == v;
      EdgeToTarget(graph, current, i);
      ExtendWalk(graph, allowed, root, current, v);
    }
    forall to | to in allowed && Edge(graph, current, to)
      ensures to in seen + found
    {
      TargetOfEdge(graph, current, to);
    }
  }

  lemma EdgeToTarget(graph: CallGraph, current: FunctionId, i: nat)
    requires WellFormed(graph, FunctionsIn(graph)) && i < |TargetsOf(graph, current)|
    ensures Edge(graph, current, TargetsOf(graph, current)[i])
  {
    var range := EdgeRange(graph, current);
    assert graph.edgeTarget[range.start + i] == TargetsOf(graph, current)[i];
  }

  lemma TargetOfEdge(graph: CallGraph, current: FunctionId, to: nat)
    requires WellFormed(graph, FunctionsIn(graph)) && Edge(graph, current, to)
    ensures to in TargetsOf(graph, current)
  {
    var range := EdgeRange(graph, current);
    var slot :| range.start <= slot < range.end && slot < |graph.edgeTarget| && graph.edgeTarget[slot] == to;
    assert TargetsOf(graph, current)[slot - range.start] == to;
  }

  /** Stamps everything a walk over fresh functions leads to, pushing each such function exactly once. */
  method MarkReachable(graph: CallGraph, root: FunctionId, stamp: array<u32>, generation: u32)
    returns (ghost pushed: seq<FunctionId>)
    requires WellFormed(graph, FunctionsIn(graph))
    modifies stamp
    ensures IsMarked(graph, root, old(stamp[..]), stamp[..], generation)
    ensures NoRepeats(pushed)
    ensures forall v: nat :: v in pushed <==>
              && root < FunctionsIn(graph) && root < stamp.Length && v < stamp.Length
              && WalkTo(graph, Fresh(graph, old(stamp[..]), generation), root, v)
  {
    pushed := [];
    if root >= FunctionsIn(graph) || root >= stamp.Length {
      return;
    }
    ghost var before := stamp[..];
    ghost var allowed := Fresh(graph, before, generation);
    stamp[root] := generation;
    var pending: seq<FunctionId> := [root];
    pushed := pending;
    assert Walk(graph, allowed, [root]) && [root][0] == root && [root][|[root]| - 1] == root;
    while |pending| > 0
      invariant Searching(graph, root, allowed, before, stamp[..], generation, Queued(pushed), Queued(pending))
      invariant Queued(pending) <= Queued(pushed) && NoRepeats(pushed)
      decreases allowed + {root} - Queued(pushed), |pending|
    {
      var current := pending[|pending| - 1];
      assert pending == pending[..|pending| - 1] + [current];
      QueuedAppend(pending[..|pending| - 1], [current]);
      assert Queued([current]) == {current};
      pending := pending[..|pending| - 1];
      ghost var marked, queued := stamp[..], pending;
      ghost var found := FreshTargets(graph, marked, generation, TargetsOf(graph, current));
      pending := VisitCallees(graph, current, stamp, generation, pending);
      VisitKeepsSearching(graph, root, before, marked, stamp[..], generation, Queued(pushed), Queued(queued), current);
      QueuedAppend(queued, found);
      QueuedAppend(pushed, found);
      NoRepeatsAppend(pushed, found);
      assert found != [] ==> found[0] in Queued(found);
      pushed := pushed + found;
    }
    FinishedSearchIsMarked(graph, root, before, stamp[..], generation, Queued(pushed));
    assert forall v: nat :: v in pushed <==> v in Queued(pushed);
  }

  // ---- What the stamps mean in terms of the call table ---------------------------------------

  /** Some row of the call table has `caller` call `callee`. */
  ghost predicate HasCall(tables: Tables, caller: nat, callee: nat) {
    exists row :: 0 <= row < CallCount(tables.calls) && row < |tables.calls.callee|
                  && tables.calls.caller[row] == caller && tables.calls.callee[row] == callee
  }

  /** A chain of calls between functions that exist. */
  ghost predicate CallChain(tables: Tables, path: seq<nat>) {
    && |path| > 0
    && (forall i :: 0 <= i < |path| ==> path[i] < FunctionCount(tables.functions))
    && (forall i :: 0 < i < |path| ==> HasCall(tables, path[i - 1], path[i]))
  }

  ghost predicate CallReaches(tables: Tables, root: nat, func: nat) {
    exists path :: CallChain(tables, path) && path[0] == root && path[|path| - 1] == func
  }

  /** Slot by slot, the range of `from` holds the callees of its call rows. */
  lemma SlotsAreRows(graph: CallGraph, tables: Tables, from: nat)
    requires CallCount(tables.calls) <= NO_INDEX && GraphOf(graph, tables)
    requires from < FunctionCount(tables.functions)
    ensures RangeFits(graph, from)
    ensures var rows := CallsFrom(tables.calls, from, CallCount(tables.calls));
            && |rows| == (graph.edgeStart[from + 1] as int) - graph.edgeStart[from]
            && forall i :: 0 <= i < |rows| ==>
                 rows[i] < |tables.calls.callee|
                 && graph.edgeTarget[graph.edgeStart[from] as int + i] == tables.calls.callee[rows[i]]
  {
    assert RangeFits(graph, from) && HoldsCallsOf(graph, tables.calls, from);
    var rows := CallsFrom(tables.calls, from, CallCount(tables.calls));
    CallsFromIsInRange(tables.calls, from, CallCount(tables.calls));
    var slice := graph.edgeTarget[graph.edgeStart[from]..graph.edgeStart[from + 1]];
    assert slice == Callees(tables.calls, rows);
    forall i | 0 <= i < |rows|
      ensures graph.edgeTarget[graph.edgeStart[from] as int + i] == tables.calls.callee[rows[i]]
    {
      assert slice[i] == tables.calls.callee[rows[i]];
    }
  }

  lemma EdgeIsCall(graph: CallGraph, tables: Tables, from: nat, to: nat)
    requires CallCount(tables.calls) <= NO_INDEX && GraphOf(graph, tables)
    requires from < FunctionCount(tables.functions) && Edge(graph, from, to)
    ensures HasCall(tables, from, to)
  {
    SlotsAreRows(graph, tables, from);
    CallsFromIsInRange(tables.calls, from, CallCount(tables.calls));
    var start: int := graph.edgeStart[from];
    var slot :| start <= slot < graph.edgeStart[from + 1] && graph.edgeTarget[slot] == to;
    var rows := CallsFrom(tables.calls, from, CallCount(tables.calls));
    var row := rows[slot - start];
    assert row in rows;
    assert graph.edgeTarget[start + (slot - start)] == tables.calls.callee[row];
  }

  lemma CallIsEdge(graph: CallGraph, tables: Tables, from: nat, to: nat)
    requires CallCount(tables.calls) <= NO_INDEX && GraphOf(graph, tables)
    requires from < FunctionCount(tables.functions) && HasCall(tables, from, to)
    ensures Edge(graph, from, to)
  {
    var calls := tables.calls;
    var row :| 0 <= row < CallCount(calls) && row < |calls.callee|
               && calls.caller[row] == from && calls.callee[row] == to;
    CallsFromIsInRange(calls, from, CallCount(calls));
    var rows := CallsFrom(calls, from, CallCount(calls));
    assert row in rows;
    var i :| 0 <= i < |rows| && rows[i] == row;
    SlotsAreRows(graph, tables, from);
    assert graph.edgeTarget[graph.edgeStart[from] as int + i] == to;
  }

  lemma EdgesAreCalls(graph: CallGraph, tables: Tables, from: nat, to: nat)
    requires CallCount(tables.calls) <= NO_INDEX && GraphOf(graph, tables)
    ensures Edge(graph, from, to) <==> from < FunctionCount(tables.functions) && HasCall(tables, from, to)
  {
    if from < FunctionCount(tables.functions) {
      if Edge(graph, from, to) {
        EdgeIsCall(graph, tables, from, to);
      }
      if HasCall(tables, from, to) {
        CallIsEdge(graph, tables, from, to);
      }
    }
  }

  ghost predicate IsFunction(graph: CallGraph, v: nat) {
    v < FunctionsIn(graph)
  }

  ghost function AllFunctions(graph: CallGraph): set<nat> {
    set v: nat | v < FunctionsIn(graph) && IsFunction(graph, v)
  }

  /** A walk from the root through functions the graph has. */
  ghost predicate GraphReaches(graph: CallGraph, root: nat, func: nat) {
    root < FunctionsIn(graph) && WalkTo(graph, AllFunctions(graph), root, func)
  }

  /** With a buffer that covers every function and a generation nothing holds, stamped means reachable. */
  lemma CleanSearchIsExact(graph: CallGraph, root: nat, before: seq<u32>, after: seq<u32>, generation: u32)
    requires |before| >= FunctionsIn(graph)
    requires forall v :: 0 <= v < |before| ==> before[v] != generation
    requires IsMarked(graph, root, before, after, generation)
    ensures forall v :: 0 <= v < |before| ==>
              (after[v] == generation <==> GraphReaches(graph, root, v))
              && (after[v] != generation ==> after[v] == before[v])
  {
    assert Fresh(graph, before, generation) == AllFunctions(graph);
  }

  lemma GraphReachesIsCallReaches(graph: CallGraph, tables: Tables, root: nat, func: nat)
    requires CallCount(tables.calls) <= NO_INDEX && GraphOf(graph, tables)
    ensures GraphReaches(graph, root, func) <==> CallReaches(tables, root, func)
  {
    var all := AllFunctions(graph);
    if GraphReaches(graph, root, func) {
      var path :| Walk(graph, all, path) && path[0] == root && path[|path| - 1] == func;
      forall i | 0 < i < |path|
        ensures HasCall(tables, path[i - 1], path[i])
      {
        EdgesAreCalls(graph, tables, path[i - 1], path[i]);
      }
      assert CallChain(tables, path);
    }
    if CallReaches(tables, root, func) {
      var path :| CallChain(tables, path) && path[0] == root && path[|path| - 1] == func;
      forall i | 0 < i < |path|
        ensures Edge(graph, path[i - 1], path[i]) && path[i] in all
      {
        EdgesAreCalls(graph, tables, path[i - 1], path[i]);
      }
      assert Walk(graph, all, path);
    }
  }

  method ReachableFrom(graph: CallGraph, root: FunctionId) returns (reached: seq<bool>)
    requires WellFormed(graph, FunctionsIn(graph))
    ensures |reached| == FunctionsIn(graph)
    ensures forall func :: 0 <= func < |reached| ==> (reached[func] <==> GraphReaches(graph, root, func))
  {
    var functions := FunctionsIn(graph);
    var stamp := new u32[functions](_ => 0);
    ghost var zeros := stamp[..];
    ghost var _ := MarkReachable(graph, root, stamp, 1);
    CleanSearchIsExact(graph, root, zeros, stamp[..], 1);
    reached := seq(functions, i requires 0 <= i < stamp.Length reads stamp => stamp[i] == 1);
  }
}
