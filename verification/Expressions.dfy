/** Expression rows, and walks down the trees they make. */
module Expressions {
  import opened Basics
  import opened Facts

  const MAXIMUM_DEPTH: nat := 32

  /** Which rows come next below a row. */
  type Links = ExpressionId -> seq<ExpressionId>

  type Test = ExpressionId -> bool

  // ---- Reading an expression row ----------------------------------------------------------------------

  function ChildrenOf(tables: Tables, expression: ExpressionId): seq<ExpressionId> {
    var all := tables.expressions.children;
    var range := Bounded(RangeOf(tables.expressions.childStart, tables.expressions.childCount, expression), |all|);
    all[range.start..range.end]
  }

  /** The children of a row are the slots from its start on, as many as its count and the column allow, in order. */
  lemma ChildrenAre(tables: Tables, expression: ExpressionId, i: nat)
    ensures var rows, children := tables.expressions, ChildrenOf(tables, expression);
            && (i < |children| <==>
                  && expression < |rows.childStart| && expression < |rows.childCount|
                  && i < rows.childCount[expression]
                  && rows.childStart[expression] + i < |rows.children|)
            && (i < |children| ==> children[i] == rows.children[rows.childStart[expression] + i])
  {
  }

  function KindAt(tables: Tables, expression: ExpressionId): Option<ExpressionKind> {
    Get(tables.expressions.kind, expression)
  }

  function TextAt(tables: Tables, expression: ExpressionId): seq<u8> {
    NameAt(tables, tables.expressions.text, expression)
  }

  function FieldAt(tables: Tables, expression: ExpressionId): FieldId {
    OrElse(Get(tables.expressions.field, expression), NO_INDEX)
  }

  function ResultAt(tables: Tables, expression: ExpressionId): TypeId {
    OrElse(Get(tables.expressions.result, expression), NO_INDEX)
  }

  function Down(tables: Tables): Links {
    (expression: ExpressionId) => ChildrenOf(tables, expression)
  }

  /** The first struct row declared for a type. */
  function FirstStruct(tables: Tables, kind: TypeId, row: nat): Option<StructId>
    decreases |tables.structs.name| - row
  {
    if row >= |tables.structs.name| then None
    else if Get(tables.structs.typeId, row) == Some(kind) then Some(AsU32(row))
    else FirstStruct(tables, kind, row + 1)
  }

  /** The struct a type reaches through at most eight wrappers. */
  function StructBehind(tables: Tables, kind: TypeId, depth: nat): Option<StructId>
    decreases 8 - depth
  {
    if depth >= 8 then None
    else if Get(tables.types.kind, kind) == Some(TypeKind.Struct) then FirstStruct(tables, kind, 0)
    else
      match Get(tables.types.element, kind)
      case None => None
      case Some(element) =>
        if element == NO_INDEX || element == kind then None else StructBehind(tables, element, depth + 1)
  }

  // ---- Walking an expression tree ---------------------------------------------------------------------

  /** A walk down from an expression, child by child. */
  predicate IsChain(next: Links, root: ExpressionId, path: seq<ExpressionId>)
    decreases |path|
  {
    && path != [] && path[0] == root
    && (|path| == 1 || (path[1] in next(root) && IsChain(next, path[1], path[1..])))
  }

  function End(path: seq<ExpressionId>): ExpressionId
    requires path != []
  {
    path[|path| - 1]
  }

  /** Every row under an expression passes, and the tree nests no deeper than the limit. */
  predicate Everywhere(next: Links, test: Test, expression: ExpressionId, depth: nat)
    decreases MAXIMUM_DEPTH - depth
  {
    && depth < MAXIMUM_DEPTH
    && test(expression)
    && forall child :: child in next(expression) ==> Everywhere(next, test, child, depth + 1)
  }

  /** Some row under an expression passes, looking no deeper than the limit. */
  predicate Somewhere(next: Links, test: Test, expression: ExpressionId, depth: nat)
    decreases MAXIMUM_DEPTH - depth
  {
    && depth < MAXIMUM_DEPTH
    && (test(expression)
        || exists child :: child in next(expression) && Somewhere(next, test, child, depth + 1))
  }

  lemma LongerChain(next: Links, root: ExpressionId, child: ExpressionId, path: seq<ExpressionId>)
    requires child in next(root) && IsChain(next, child, path)
    ensures IsChain(next, root, [root] + path) && End([root] + path) == End(path)
  {
    assert ([root] + path)[1..] == path;
  }

  lemma {:induction false} EverywhereOnChain(
    next: Links, test: Test, expression: ExpressionId, depth: nat, path: seq<ExpressionId>)
    requires Everywhere(next, test, expression, depth) && IsChain(next, expression, path)
    ensures depth + |path| <= MAXIMUM_DEPTH && test(End(path))
    decreases |path|
  {
    if |path| > 1 {
      EverywhereOnChain(next, test, path[1], depth + 1, path[1..]);
    }
  }

  lemma {:induction false} ChainBeyond(
    next: Links, test: Test, expression: ExpressionId, depth: nat)
    returns (path: seq<ExpressionId>)
    requires !Everywhere(next, test, expression, depth)
    ensures IsChain(next, expression, path) && (depth + |path| > MAXIMUM_DEPTH || !test(End(path)))
    decreases MAXIMUM_DEPTH - depth
  {
    if depth >= MAXIMUM_DEPTH || !test(expression) {
      path := [expression];
    } else {
      var child :| child in next(expression) && !Everywhere(next, test, child, depth + 1);
      path := ChainBeyond(next, test, child, depth + 1);
      LongerChain(next, expression, child, path);
      path := [expression] + path;
    }
  }

  ghost predicate EveryChain(next: Links, test: Test, expression: ExpressionId, depth: nat) {
    forall path :: IsChain(next, expression, path) ==> depth + |path| <= MAXIMUM_DEPTH && test(End(path))
  }

  ghost predicate SomeChain(next: Links, test: Test, expression: ExpressionId, depth: nat) {
    exists path :: IsChain(next, expression, path) && depth + |path| <= MAXIMUM_DEPTH && test(End(path))
  }

  /** The recursive test holds exactly when every chain is short enough and ends in a row that passes. */
  lemma EverywhereIsEveryChain(next: Links, test: Test, expression: ExpressionId, depth: nat)
    ensures Everywhere(next, test, expression, depth) <==> EveryChain(next, test, expression, depth)
  {
    if Everywhere(next, test, expression, depth) {
      forall path | IsChain(next, expression, path)
        ensures depth + |path| <= MAXIMUM_DEPTH && test(End(path))
      {
        EverywhereOnChain(next, test, expression, depth, path);
      }
    } else {
      var path := ChainBeyond(next, test, expression, depth);
    }
  }

  lemma {:induction false} SomewhereOnChain(
    next: Links, test: Test, expression: ExpressionId, depth: nat)
    returns (path: seq<ExpressionId>)
    requires Somewhere(next, test, expression, depth)
    ensures IsChain(next, expression, path) && depth + |path| <= MAXIMUM_DEPTH && test(End(path))
    decreases MAXIMUM_DEPTH - depth
  {
    if test(expression) {
      path := [expression];
    } else {
      var child :| child in next(expression) && Somewhere(next, test, child, depth + 1);
      var rest := SomewhereOnChain(next, test, child, depth + 1);
      LongerChain(next, expression, child, rest);
      path := [expression] + rest;
    }
  }

  lemma {:induction false} ChainIsSomewhere(
    next: Links, test: Test, expression: ExpressionId, depth: nat, path: seq<ExpressionId>)
    requires IsChain(next, expression, path) && depth + |path| <= MAXIMUM_DEPTH && test(End(path))
    ensures Somewhere(next, test, expression, depth)
    decreases |path|
  {
    if |path| > 1 {
      ChainIsSomewhere(next, test, path[1], depth + 1, path[1..]);
    }
  }

  /** The recursive search finds a row exactly when a short enough chain leads to one. */
  lemma SomewhereIsSomeChain(next: Links, test: Test, expression: ExpressionId, depth: nat)
    ensures Somewhere(next, test, expression, depth) <==> SomeChain(next, test, expression, depth)
  {
    if Somewhere(next, test, expression, depth) {
      var path := SomewhereOnChain(next, test, expression, depth);
    } else if SomeChain(next, test, expression, depth) {
      var path :| IsChain(next, expression, path) && depth + |path| <= MAXIMUM_DEPTH && test(End(path));
      ChainIsSomewhere(next, test, expression, depth, path);
    }
  }

  // ---- Building bottom up -------------------------------------------------------------------------------

  predicate AllSome<T>(options: seq<Option<T>>) {
    forall i :: 0 <= i < |options| ==> options[i].Some?
  }

  /** The values, where every one of them is there. */
  function Collected<T>(options: seq<Option<T>>): (r: Option<seq<T>>)
    ensures r.Some? <==> AllSome(options)
    ensures r.Some? ==> |r.value| == |options| && forall i :: 0 <= i < |options| ==> options[i] == Some(r.value[i])
  {
    if AllSome(options) then Some(seq(|options|, i requires 0 <= i < |options| => options[i].value)) else None
  }

  /** A tree built bottom up: children first, then the row's own shape, nothing past the depth limit. */
  function Folded<T>(
    next: Links, shape: (ExpressionId, seq<T>) -> Option<T>, expression: ExpressionId, depth: nat)
    : Option<T>
    decreases MAXIMUM_DEPTH - depth, 0
  {
    if depth >= MAXIMUM_DEPTH then None
    else
      match Collected(FoldedAll(next, shape, next(expression), depth + 1))
      case None => None
      case Some(children) => shape(expression, children)
  }

  function FoldedAll<T>(
    next: Links, shape: (ExpressionId, seq<T>) -> Option<T>, expressions: seq<ExpressionId>, depth: nat)
    : (r: seq<Option<T>>)
    ensures |r| == |expressions|
    ensures forall i :: 0 <= i < |r| ==> r[i] == Folded(next, shape, expressions[i], depth)
    decreases MAXIMUM_DEPTH - depth, 1
  {
    seq(|expressions|, i requires 0 <= i < |expressions| => Folded(next, shape, expressions[i], depth))
  }

  /** Whether a row gets a shape depends on the row alone. */
  ghost predicate Decides<T(!new)>(
    next: Links, shape: (ExpressionId, seq<T>) -> Option<T>, test: Test)
  {
    forall expression: ExpressionId, children: seq<T> ::
      |children| == |next(expression)| ==> (shape(expression, children).Some? <==> test(expression))
  }

  lemma FoldedNeedsChildren<T(!new)>(
    next: Links, shape: (ExpressionId, seq<T>) -> Option<T>, test: Test,
    expression: ExpressionId, depth: nat)
    requires Decides(next, shape, test) && depth < MAXIMUM_DEPTH
    ensures Folded(next, shape, expression, depth).Some?
            <==> test(expression) && AllSome(FoldedAll(next, shape, next(expression), depth + 1))
  {
  }

  lemma AllSomeOfAll<T(!new)>(
    next: Links, shape: (ExpressionId, seq<T>) -> Option<T>, expressions: seq<ExpressionId>, depth: nat)
    ensures AllSome(FoldedAll(next, shape, expressions, depth))
            <==> forall e :: e in expressions ==> Folded(next, shape, e, depth).Some?
  {
    var folded := FoldedAll(next, shape, expressions, depth);
    if AllSome(folded) {
      forall e | e in expressions
        ensures Folded(next, shape, e, depth).Some?
      {
        var i :| 0 <= i < |expressions| && expressions[i] == e;
        assert folded[i].Some?;
      }
    } else {
      var i :| 0 <= i < |folded| && folded[i].None?;
      assert expressions[i] in expressions;
    }
  }

  /** A tree is built exactly when every row under the expression gets a shape, within the depth limit. */
  lemma {:induction false} FoldedIsEverywhere<T(!new)>(
    next: Links, shape: (ExpressionId, seq<T>) -> Option<T>, test: Test,
    expression: ExpressionId, depth: nat)
    requires Decides(next, shape, test)
    ensures Folded(next, shape, expression, depth).Some? <==> Everywhere(next, test, expression, depth)
    decreases MAXIMUM_DEPTH - depth
  {
    if depth < MAXIMUM_DEPTH {
      FoldedNeedsChildren(next, shape, test, expression, depth);
      AllSomeOfAll(next, shape, next(expression), depth + 1);
      forall child | child in next(expression)
        ensures Folded(next, shape, child, depth + 1).Some? <==> Everywhere(next, test, child, depth + 1)
      {
        FoldedIsEverywhere(next, shape, test, child, depth + 1);
      }
    }
  }
}
