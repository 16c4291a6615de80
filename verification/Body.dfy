/** Writing a function's body: all of it or none of it. */
module Body {
  import opened Basics
  import opened Facts
  import opened Arena
  import opened Lower
  import opened Expressions
  import Ownership

  // ---- The gates ----------------------------------------------------------------------------------------

  predicate IsDigits(text: seq<u8>) {
    forall i :: 0 <= i < |text| ==> 48 <= text[i] <= 57
  }

  predicate IsBareNumber(tables: Tables, expression: ExpressionId) {
    KindAt(tables, expression) == Some(Literal) && IsDigits(TextAt(tables, expression))
  }

  predicate HasNoSpelling(kind: ExpressionKind) {
    kind.Parameter? || kind.Length? || kind.Allocation? || kind.Unsupported? || kind.Null?
  }

  /** Whether the shape of one row is one the port can write. */
  predicate IsSpelled(tables: Tables, expression: ExpressionId) {
    var kind, text := KindAt(tables, expression), TextAt(tables, expression);
    && kind.Some?
    && !(kind.value.Field? && text == Ascii("len"))
    && text != Ascii("null") && text != Ascii("undefined")
    && !(kind.value.Identifier? && (text == Ascii("std") || text == Ascii("builtin")))
    && !(kind.value.Cast? && text == [])
    && !(kind.value.Method? && exists child :: child in ChildrenOf(tables, expression) && IsBareNumber(tables, child))
    && !HasNoSpelling(kind.value)
  }

  function Spelling(tables: Tables): ExpressionId -> bool {
    (expression: ExpressionId) => IsSpelled(tables, expression)
  }

  predicate IsSpellable(tables: Tables, expression: ExpressionId, depth: nat) {
    Everywhere(Down(tables), Spelling(tables), expression, depth)
  }

  predicate IsAllocatorParameter(tables: Tables, row: nat, text: seq<u8>) {
    && row < |tables.parameters.flags| && tables.parameters.flags[row] % 2 == PARAMETER_FLAG_ALLOCATOR
    && row < |tables.parameters.name| && StringBytes(tables.strings, tables.parameters.name[row]) == text
  }

  /** Whether one row names an allocator the function was handed. */
  predicate NamesTheAllocator(tables: Tables, function_: FunctionId, expression: ExpressionId) {
    && KindAt(tables, expression) == Some(Identifier)
    && var range, text := ParametersOf(tables, function_), TextAt(tables, expression);
       exists row: nat :: range.start <= row < range.end && IsAllocatorParameter(tables, row, text)
  }

  function Naming(tables: Tables, function_: FunctionId): ExpressionId -> bool {
    (expression: ExpressionId) => NamesTheAllocator(tables, function_, expression)
  }

  predicate ReadsTheAllocator(tables: Tables, function_: FunctionId, expression: ExpressionId, depth: nat) {
    Somewhere(Down(tables), Naming(tables, function_), expression, depth)
  }

  /** Whether one row binds or assigns what it reads from a field that owns something. */
  predicate TakesAnOwnedField(tables: Tables, class_: seq<Ownership.OwnershipClass>, expression: ExpressionId) {
    var kind, children := KindAt(tables, expression), ChildrenOf(tables, expression);
    && (kind == Some(Let) || kind == Some(Assign))
    && children != []
    && KindAt(tables, children[|children| - 1]) == Some(ExpressionKind.Field)
    && var field := FieldAt(tables, children[|children| - 1]);
       field != NO_INDEX && (Get(class_, field) == Some(Ownership.Owned) || Get(class_, field) == Some(Ownership.Grown))
  }

  function Taking(tables: Tables, class_: seq<Ownership.OwnershipClass>): ExpressionId -> bool {
    (expression: ExpressionId) => TakesAnOwnedField(tables, class_, expression)
  }

  predicate MovesAnOwnedField(
    tables: Tables, class_: seq<Ownership.OwnershipClass>, expression: ExpressionId, depth: nat)
  {
    Somewhere(Down(tables), Taking(tables, class_), expression, depth)
  }

  predicate ParameterIsSettled(tables: Tables, class_: seq<Ownership.OwnershipClass>, row: nat) {
    match Get(tables.parameters.parameterType, row)
    case None => true
    case Some(declared) =>
      match StructBehind(tables, declared, 0)
      case None => true
      case Some(owner) =>
        var fields := FieldsOf(tables, owner);
        forall field :: fields.start <= field < fields.end ==> Get(class_, field) != Some(Ownership.Unknown)
  }

  predicate SignatureIsSettled(tables: Tables, class_: seq<Ownership.OwnershipClass>, function_: FunctionId) {
    var range := ParametersOf(tables, function_);
    forall row: nat :: range.start <= row < range.end ==> ParameterIsSettled(tables, class_, row)
  }

  // ---- Names ------------------------------------------------------------------------------------------

  predicate IsUpper(byte: u8) { 65 <= byte <= 90 }

  /** One more letter of a name, an underscore in front of it where a capital starts a word. */
  function SnakeNext(out: seq<u8>, byte: u8): seq<u8> {
    if IsUpper(byte) then
      out + (if out != [] && out[|out| - 1] != Byte('_') then Ascii("_") else []) + [byte + 32]
    else out + [byte]
  }

  function SnakeCase(name: seq<u8>): seq<u8> {
    if name == [] then [] else SnakeNext(SnakeCase(name[..|name| - 1]), name[|name| - 1])
  }

  lemma SnakeCaseNext(name: seq<u8>, i: nat)
    requires i < |name|
    ensures SnakeCase(name[..i + 1]) == SnakeNext(SnakeCase(name[..i]), name[i])
  {
    assert name[..i + 1][..i] == name[..i];
  }

  method ToSnakeCase(name: seq<u8>) returns (out: seq<u8>)
    ensures out == SnakeCase(name)
  {
    out := [];
    for position := 0 to |name|
      invariant out == SnakeCase(name[..position])
    {
      SnakeCaseNext(name, position);
      var byte := name[position];
      ghost var before := out;
      if IsUpper(byte) {
        if out != [] && out[|out| - 1] != Byte('_') {
          out := out + Ascii("_");
        }
        out := out + [byte + 32];
      } else {
        out := out + [byte];
      }
      assert out == SnakeNext(before, byte);
    }
    assert name[..|name|] == name;
  }

  lemma {:induction false} SnakeCaseHasNoCapitals(name: seq<u8>)
    ensures forall i :: 0 <= i < |SnakeCase(name)| ==> !IsUpper(SnakeCase(name)[i])
  {
    if name != [] {
      SnakeCaseHasNoCapitals(name[..|name| - 1]);
    }
  }

  lemma {:induction false} NoCapitalsIsSnakeCase(name: seq<u8>)
    requires forall i :: 0 <= i < |name| ==> !IsUpper(name[i])
    ensures SnakeCase(name) == name
  {
    if name != [] {
      NoCapitalsIsSnakeCase(name[..|name| - 1]);
      assert name == name[..|name| - 1] + [name[|name| - 1]];
    }
  }

  /** A name already in snake case is left alone, so a call and its declaration cannot drift apart. */
  lemma SnakeCaseSettles(name: seq<u8>)
    ensures SnakeCase(SnakeCase(name)) == SnakeCase(name)
  {
    SnakeCaseHasNoCapitals(name);
    NoCapitalsIsSnakeCase(SnakeCase(name));
  }

  /** A byte in lower case, with an underscore in front where a capital comes after anything but an underscore. */
  function SmallLetter(previous: Option<u8>, byte: u8): seq<u8> {
    if !(65 <= byte <= 90) then [byte]
    else if previous == None || previous == Some(95) then [byte + 32]
    else [95, byte + 32]
  }

  /** The letters of a name from one on, each with the letter before it in view. */
  function SmallLetters(name: seq<u8>, from: nat): seq<u8>
    requires from <= |name|
    decreases |name| - from
  {
    if from == |name| then []
    else
      SmallLetter(if from == 0 then None else Some(name[from - 1]), name[from]) + SmallLetters(name, from + 1)
  }

  lemma {:induction false} SnakeCaseEnds(name: seq<u8>)
    requires name != []
    ensures SnakeCase(name) != []
    ensures SnakeCase(name)[|SnakeCase(name)| - 1] == 95 <==> name[|name| - 1] == 95
  {
  }

  lemma InTurn(a: seq<u8>, b: seq<u8>, c: seq<u8>)
    ensures a + b + c == a + (b + c)
  {
  }

  lemma SnakeCaseStep(name: seq<u8>, i: nat)
    requires i < |name|
    ensures SnakeCase(name[..i + 1])
         == SnakeCase(name[..i]) + SmallLetter(if i == 0 then None else Some(name[i - 1]), name[i])
  {
    SnakeCaseNext(name, i);
    if i > 0 {
      SnakeCaseEnds(name[..i]);
    } else {
      assert name[..0] == [];
    }
  }

  /** Each letter comes across by itself and the one before it. */
  lemma {:induction false} SnakeCaseIsLetters(name: seq<u8>, i: nat)
    requires i <= |name|
    ensures SnakeCase(name) == SnakeCase(name[..i]) + SmallLetters(name, i)
    decreases |name| - i
  {
    if i == |name| {
      assert name[..i] == name;
    } else {
      SnakeCaseStep(name, i);
      SnakeCaseIsLetters(name, i + 1);
      InTurn(SnakeCase(name[..i]), SmallLetter(if i == 0 then None else Some(name[i - 1]), name[i]),
             SmallLetters(name, i + 1));
    }
  }

  /** How a call reaches the function it names, where it can. */
  function CallPath(tables: Tables, lowering: Lowering, callee: FunctionId): Option<seq<u8>> {
    match Get(tables.functions.name, callee)
    case None => None
    case Some(id) =>
      var name := SnakeCase(StringBytes(tables.strings, id));
      var owner := OrElse(Get(tables.functions.module_, callee), ROOT_MODULE);
      if !lowering.qualified || owner == lowering.module_ then Some(name)
      else
        var path := NameAt(tables, tables.modules.name, owner);
        if path == [] then if lowering.module_ != ROOT_MODULE then None else Some(name)
        else Some((if lowering.module_ != ROOT_MODULE then Ascii("super::") else []) + path + Ascii("::") + name)
  }

  /** The path of the function a call row names. */
  function CalleePath(tables: Tables, lowering: Lowering, expression: ExpressionId): Option<seq<u8>> {
    match Get(tables.expressions.parameter, expression)
    case None => None
    case Some(callee) => if callee == NO_INDEX then None else CallPath(tables, lowering, callee)
  }

  /** The type name a struct literal is written with, empty where there is none. */
  function LiteralName(tables: Tables, expression: ExpressionId): seq<u8> {
    NameAt(tables, tables.types.name, ResultAt(tables, expression))
  }

  // ---- Statements ---------------------------------------------------------------------------------------

  predicate ProducesAValue(kind: Option<ExpressionKind>) {
    kind != Some(Let) && kind != Some(Assign) && kind != Some(While) && kind != Some(For)
  }

  predicate IsBraced(kind: Option<ExpressionKind>) {
    kind == Some(While) || kind == Some(For) || kind == Some(Block) || kind == Some(Branch)
  }

  /** One statement of a block. `tail` is whether it is the last thing the function does. */
  function StatementTree(kind: Option<ExpressionKind>, tree: Tree, tail: bool): Tree {
    if IsBraced(kind) then tree
    else if tail && ProducesAValue(kind) then
      if kind == Some(Return) && tree.children != [] then tree.children[0] else tree
    else Parent(Statement, 0, 0, tree)
  }

  function StatementTrees(tables: Tables, original: seq<ExpressionId>, trees: seq<Tree>, tail: bool): (r: seq<Tree>)
    requires |original| == |trees|
    ensures |r| == |trees|
  {
    seq(|trees|, i requires 0 <= i < |trees| =>
      StatementTree(KindAt(tables, original[i]), trees[i], tail && i + 1 == |trees|))
  }

  // ---- The tree a row lowers to -------------------------------------------------------------------------

  function Spelled(kind: NodeKind, text: seq<u8>, children: seq<Tree>): Tree {
    Node(kind, text, [], 0, 0, children)
  }

  /** The shapes that come across one for one, and whether the row's text comes with them. */
  function Direct(kind: ExpressionKind): Option<(NodeKind, bool)> {
    match kind
    case Cast => Some((ExpressionAs, true))
    case Wrap => Some((NodeKind.ExpressionCall, true))
    case Field => Some((ExpressionField, true))
    case Binary => Some((ExpressionBinary, true))
    case Unary => Some((ExpressionUnary, true))
    case Group => Some((ExpressionGroup, false))
    case Question => Some((ExpressionQuestion, false))
    case Return => Some((ExpressionReturn, false))
    case Assign => Some((ExpressionAssign, true))
    case Branch => Some((ExpressionBranch, false))
    case While => Some((ExpressionWhile, false))
    case For => Some((ExpressionFor, true))
    case Match => Some((ExpressionMatch, false))
    case Arm => Some((ExpressionArm, true))
    case _ => None
  }

  /** The subscript converted to the type an index takes. */
  function Subscripted(children: seq<Tree>): seq<Tree> {
    if children == [] then []
    else
      var last := |children| - 1;
      children[last := Spelled(ExpressionAs, Ascii("usize"), [children[last]])]
  }

  function LetTree(tables: Tables, lowering: Lowering, expression: ExpressionId, children: seq<Tree>): Tree {
    var declared := ResultAt(tables, expression);
    var annotation := if declared == NO_INDEX then [] else [TypeTree(tables, lowering, declared, 0)];
    var mutable := Get(tables.expressions.parameter, expression) == Some(1);
    Node(ExpressionLet, TextAt(tables, expression), [], 0, if mutable then 1 else 0, children + annotation)
  }

  function LiteralTree(
    tables: Tables, lowering: Lowering, expression: ExpressionId, children: seq<Tree>): Option<Tree>
  {
    var field, result := FieldAt(tables, expression), ResultAt(tables, expression);
    if field != NO_INDEX then
      Some(Spelled(FieldValue, NameAt(tables, tables.fields.name, field), children))
    else if LiteralName(tables, expression) == [] then None
    else
      Some(Spelled(ExpressionStruct, QualifyName(tables, lowering, result, LiteralName(tables, expression)), children))
  }

  function CallTree(tables: Tables, lowering: Lowering, expression: ExpressionId, children: seq<Tree>): Option<Tree>
  {
    match CalleePath(tables, lowering, expression)
    case Some(path) => Some(Spelled(NodeKind.ExpressionCall, path, children))
    case None => None
  }

  function DirectTree(tables: Tables, expression: ExpressionId, kind: ExpressionKind, children: seq<Tree>): Option<Tree>
  {
    match Direct(kind)
    case None => None
    case Some((node, texted)) => Some(Spelled(node, if texted then TextAt(tables, expression) else [], children))
  }

  /** The tree of one row, given the trees of its children. */
  function ShapeTree(
    tables: Tables, lowering: Lowering, expression: ExpressionId, kind: ExpressionKind, children: seq<Tree>)
    : Option<Tree>
    requires |children| == |ChildrenOf(tables, expression)|
  {
    if kind == Identifier then Some(Spelled(ExpressionPath, TextAt(tables, expression), []))
    else if kind == Literal then Some(Spelled(ExpressionLiteral, TextAt(tables, expression), []))
    else if kind == StructLiteral then LiteralTree(tables, lowering, expression, children)
    else if kind == Index then Some(Spelled(ExpressionIndex, [], Subscripted(children)))
    else if kind == Let then Some(LetTree(tables, lowering, expression, children))
    else if kind == Method then Some(Spelled(ExpressionMethod, SnakeCase(TextAt(tables, expression)), children))
    else if kind == Call then CallTree(tables, lowering, expression, children)
    else if kind == Block then
      Some(Spelled(ExpressionBlock, [], StatementTrees(tables, ChildrenOf(tables, expression), children, false)))
    else DirectTree(tables, expression, kind, children)
  }

  function Shaping(tables: Tables, lowering: Lowering): (ExpressionId, seq<Tree>) -> Option<Tree> {
    (expression: ExpressionId, children: seq<Tree>) =>
      if KindAt(tables, expression).None? || |children| != |ChildrenOf(tables, expression)| then None
      else ShapeTree(tables, lowering, expression, KindAt(tables, expression).value, children)
  }

  /** The tree an expression lowers to, where it and everything under it can be written. */
  function ExpressionTree(tables: Tables, lowering: Lowering, expression: ExpressionId, depth: nat): Option<Tree> {
    Folded(Down(tables), Shaping(tables, lowering), expression, depth)
  }

  function TreesOf(tables: Tables, lowering: Lowering, expressions: seq<ExpressionId>, depth: nat)
    : (r: seq<Option<Tree>>)
    ensures |r| == |expressions|
  {
    FoldedAll(Down(tables), Shaping(tables, lowering), expressions, depth)
  }

  /** Whether one row can be written once its children are. */
  predicate HasShape(tables: Tables, lowering: Lowering, expression: ExpressionId) {
    var kind := KindAt(tables, expression);
    if kind.None? then false
    else if kind.value == StructLiteral then
      FieldAt(tables, expression) != NO_INDEX || LiteralName(tables, expression) != []
    else if kind.value == Call then CalleePath(tables, lowering, expression).Some?
    else !HasNoSpelling(kind.value)
  }

  function Shape(tables: Tables, lowering: Lowering): ExpressionId -> bool {
    (expression: ExpressionId) => HasShape(tables, lowering, expression)
  }

  lemma ShapeIsThere(tables: Tables, lowering: Lowering, expression: ExpressionId, children: seq<Tree>)
    requires KindAt(tables, expression).Some? && |children| == |ChildrenOf(tables, expression)|
    ensures ShapeTree(tables, lowering, expression, KindAt(tables, expression).value, children).Some?
            <==> HasShape(tables, lowering, expression)
  {
  }

  lemma ShapingDecides(tables: Tables, lowering: Lowering)
    ensures Decides(Down(tables), Shaping(tables, lowering), Shape(tables, lowering))
  {
    forall expression: ExpressionId, children: seq<Tree> | |children| == |ChildrenOf(tables, expression)|
      ensures Shaping(tables, lowering)(expression, children).Some? <==> Shape(tables, lowering)(expression)
    {
      if KindAt(tables, expression).Some? {
        ShapeIsThere(tables, lowering, expression, children);
      }
    }
  }

  // ---- The body of a function ---------------------------------------------------------------------------

  predicate IsFallible(tables: Tables, function_: FunctionId) {
    function_ < |tables.functions.flags| && tables.functions.flags[function_] % 2 == FUNCTION_FLAG_FALLIBLE
  }

  /** `Ok(())`, where the function can fail and its last statement does not return. */
  function Ending(tables: Tables, function_: FunctionId, children: seq<ExpressionId>): seq<Tree> {
    var returned := children != [] && KindAt(tables, children[|children| - 1]) == Some(Return);
    if IsFallible(tables, function_) && !returned then [Spelled(ExpressionLiteral, Ascii("Ok(())"), [])] else []
  }

  predicate PassesTheGates(
    tables: Tables, class_: seq<Ownership.OwnershipClass>, function_: FunctionId, body: ExpressionId)
  {
    && body != NO_INDEX && KindAt(tables, body) == Some(Block)
    && IsSpellable(tables, body, 0)
    && !ReadsTheAllocator(tables, function_, body, 0)
    && !MovesAnOwnedField(tables, class_, body, 0)
    && ChildrenOf(tables, body) != []
  }

  /** The statements a body comes across as, or nothing. The arena they are written into has no say. */
  function BodyTrees(
    tables: Tables, class_: seq<Ownership.OwnershipClass>, lowering: Lowering, function_: FunctionId)
    : Option<seq<Tree>>
  {
    match Get(tables.functions.body, function_)
    case None => None
    case Some(body) =>
      if !SignatureIsSettled(tables, class_, function_) || !PassesTheGates(tables, class_, function_, body) then None
      else
        var children := ChildrenOf(tables, body);
        match Collected(TreesOf(tables, lowering, children, 1))
        case None => None
        case Some(trees) =>
          Some(StatementTrees(tables, children, trees, true) + Ending(tables, function_, children))
  }

  /** What every row of a written body has to be. */
  predicate CanBeWritten(
    tables: Tables, class_: seq<Ownership.OwnershipClass>, lowering: Lowering, function_: FunctionId,
    expression: ExpressionId)
  {
    && IsSpelled(tables, expression)
    && HasShape(tables, lowering, expression)
    && !NamesTheAllocator(tables, function_, expression)
    && !TakesAnOwnedField(tables, class_, expression)
  }

  /** A body is there to write: a block with something in it. */
  predicate HasBody(tables: Tables, function_: FunctionId) {
    match Get(tables.functions.body, function_)
    case None => false
    case Some(body) => body != NO_INDEX && KindAt(tables, body) == Some(Block) && ChildrenOf(tables, body) != []
  }

  ghost predicate WrittenThroughout(
    tables: Tables, class_: seq<Ownership.OwnershipClass>, lowering: Lowering, function_: FunctionId,
    body: ExpressionId)
  {
    forall path :: IsChain(Down(tables), body, path) ==>
      |path| <= MAXIMUM_DEPTH && CanBeWritten(tables, class_, lowering, function_, End(path))
  }

  lemma BlockIsThere(tables: Tables, lowering: Lowering, body: ExpressionId)
    requires KindAt(tables, body) == Some(Block)
    ensures AllSome(TreesOf(tables, lowering, ChildrenOf(tables, body), 1))
            <==> EveryChain(Down(tables), Shape(tables, lowering), body, 0)
  {
    var shape, test := Shaping(tables, lowering), Shape(tables, lowering);
    ShapingDecides(tables, lowering);
    assert test(body);
    BlockIsEveryChain(tables, shape, test, body);
  }

  lemma BlockIsEveryChain(
    tables: Tables, shape: (ExpressionId, seq<Tree>) -> Option<Tree>, test: ExpressionId -> bool, body: ExpressionId)
    requires Decides(Down(tables), shape, test) && test(body)
    ensures AllSome(FoldedAll(Down(tables), shape, ChildrenOf(tables, body), 1))
            <==> EveryChain(Down(tables), test, body, 0)
  {
    FoldedNeedsChildren(Down(tables), shape, test, body, 0);
    FoldedIsEverywhere(Down(tables), shape, test, body, 0);
    EverywhereIsEveryChain(Down(tables), test, body, 0);
  }

  /** The gates and the lowering together say what every chain from the body looks like. */
  lemma GatesAreEveryChain(
    tables: Tables, class_: seq<Ownership.OwnershipClass>, lowering: Lowering, function_: FunctionId,
    body: ExpressionId)
    requires KindAt(tables, body) == Some(Block)
    ensures (IsSpellable(tables, body, 0)
             && !ReadsTheAllocator(tables, function_, body, 0)
             && !MovesAnOwnedField(tables, class_, body, 0)
             && AllSome(TreesOf(tables, lowering, ChildrenOf(tables, body), 1)))
            <==> WrittenThroughout(tables, class_, lowering, function_, body)
  {
    EverywhereIsEveryChain(Down(tables), Spelling(tables), body, 0);
    SomewhereIsSomeChain(Down(tables), Naming(tables, function_), body, 0);
    SomewhereIsSomeChain(Down(tables), Taking(tables, class_), body, 0);
    BlockIsThere(tables, lowering, body);
  }

  /**
   * All or none. A body is written exactly when its signature is settled, there is a block with something in it,
   * and every chain of rows down from that block, however long, stays within the depth limit and ends in a row
   * that can be written. So the depth limits of the later gates hide nothing.
   */
  lemma WrittenExactlyWhenAllOfItCanBe(
    tables: Tables, class_: seq<Ownership.OwnershipClass>, lowering: Lowering, function_: FunctionId)
    ensures BodyTrees(tables, class_, lowering, function_).Some?
            <==> SignatureIsSettled(tables, class_, function_)
                 && HasBody(tables, function_)
                 && WrittenThroughout(tables, class_, lowering, function_, tables.functions.body[function_])
  {
    if HasBody(tables, function_) {
      GatesAreEveryChain(tables, class_, lowering, function_, tables.functions.body[function_]);
    }
  }

  // ---- Writing into the arena ---------------------------------------------------------------------------

  /** The nodes stand for the trees, in order. */
  predicate Stand(trees: seq<Tree>, nodes: seq<NodeId>, expected: seq<Tree>) {
    (forall i :: 0 <= i < |nodes| ==> nodes[i] < |trees|) && Gather(trees, nodes) == expected
  }

  lemma StillStand(before: seq<Tree>, after: seq<Tree>, nodes: seq<NodeId>, expected: seq<Tree>)
    requires before <= after && Stand(before, nodes, expected)
    ensures Stand(after, nodes, expected)
  {
  }

  /** What was there before has not changed. */
  twostate predicate Kept(ast: Ast)
    reads ast
  {
    ast.Valid() && old(ast.trees) <= ast.trees && old(ast.texts) <= ast.texts
  }

  /** A node came back exactly when there is a tree for it, and it stands for that tree. */
  ghost predicate Found(trees: seq<Tree>, node: Option<NodeId>, expected: Option<Tree>) {
    match node
    case None => expected.None?
    case Some(id) => id < |trees| && expected == Some(trees[id])
  }

  method PushSpelled(ast: Ast, kind: NodeKind, text: seq<u8>, flags: u32, children: seq<NodeId>)
    returns (node: NodeId)
    requires ast.Valid() && forall i :: 0 <= i < |children| ==> children[i] < |ast.trees|
    modifies ast
    ensures Kept(ast) && node < |ast.trees|
    ensures ast.trees[node] == Node(kind, text, [], 0, flags, Gather(old(ast.trees), children))
  {
    var name := ast.PushString(text);
    node := ast.PushNode(kind, Some(name), None, 0, flags, children);
  }

  method PushBare(ast: Ast, kind: NodeKind, children: seq<NodeId>) returns (node: NodeId)
    requires ast.Valid() && forall i :: 0 <= i < |children| ==> children[i] < |ast.trees|
    modifies ast
    ensures Kept(ast) && node < |ast.trees|
    ensures ast.trees[node] == Spelled(kind, [], Gather(old(ast.trees), children))
  {
    node := ast.PushNode(kind, None, None, 0, 0, children);
  }

  method LowerStatement(ast: Ast, kind: Option<ExpressionKind>, node: NodeId, tail: bool) returns (statement: NodeId)
    requires ast.Valid() && node < |ast.trees|
    modifies ast
    ensures Added(ast, statement, StatementTree(kind, old(ast.trees)[node], tail))
  {
    if IsBraced(kind) {
      return node;
    }
    if tail && ProducesAValue(kind) {
      var children := ast.NodeChildren(node);
      return if kind == Some(Return) && children != [] then children[0] else node;
    }
    statement := PushWrap(ast, Statement, 0, 0, node);
  }

  method LowerStatements(ast: Ast, tables: Tables, original: seq<ExpressionId>, lowered: seq<NodeId>, tail: bool,
                         ghost trees: seq<Tree>)
    returns (statements: seq<NodeId>)
    requires ast.Valid() && |original| == |lowered| == |trees| && Stand(ast.trees, lowered, trees)
    modifies ast
    ensures Kept(ast) && Stand(ast.trees, statements, StatementTrees(tables, original, trees, tail))
  {
    statements := [];
    for position := 0 to |lowered|
      invariant Kept(ast) && Stand(ast.trees, lowered, trees)
      invariant Stand(ast.trees, statements, StatementTrees(tables, original, trees, tail)[..position])
    {
      ghost var before := ast.trees;
      var kind := KindAt(tables, original[position]);
      assert before[lowered[position]] == Gather(before, lowered)[position];
      var statement := LowerStatement(ast, kind, lowered[position], tail && position + 1 == |lowered|);
      StillStand(before, ast.trees, lowered, trees);
      StillStand(before, ast.trees, statements, StatementTrees(tables, original, trees, tail)[..position]);
      statements := statements + [statement];
    }
  }

  method LowerLiteral(ast: Ast, tables: Tables, lowering: Lowering, expression: ExpressionId, lowered: seq<NodeId>,
                      ghost trees: seq<Tree>)
    returns (node: Option<NodeId>)
    requires ast.Valid() && Stand(ast.trees, lowered, trees)
    modifies ast
    ensures Kept(ast) && Found(ast.trees, node, LiteralTree(tables, lowering, expression, trees))
  {
    var field := FieldAt(tables, expression);
    if field != NO_INDEX {
      var value := PushSpelled(ast, FieldValue, NameAt(tables, tables.fields.name, field), 0, lowered);
      return Some(value);
    }
    var text := LiteralName(tables, expression);
    if text == [] {
      return None;
    }
    var path := QualifyName(tables, lowering, ResultAt(tables, expression), text);
    var literal := PushSpelled(ast, ExpressionStruct, path, 0, lowered);
    node := Some(literal);
  }

  method LowerIndex(ast: Ast, lowered: seq<NodeId>, ghost trees: seq<Tree>) returns (node: NodeId)
    requires ast.Valid() && Stand(ast.trees, lowered, trees)
    modifies ast
    ensures Added(ast, node, Spelled(ExpressionIndex, [], Subscripted(trees)))
  {
    var children := lowered;
    if children != [] {
      var last := |children| - 1;
      ghost var before := ast.trees;
      assert Gather(before, [lowered[last]]) == [trees[last]];
      var cast := PushSpelled(ast, ExpressionAs, Ascii("usize"), 0, [children[last]]);
      children := children[last := cast];
      assert Gather(ast.trees, children) == Subscripted(trees);
    }
    node := PushBare(ast, ExpressionIndex, children);
  }

  method LowerLet(ast: Ast, tables: Tables, lowering: Lowering, expression: ExpressionId, name: nat,
                  lowered: seq<NodeId>, ghost trees: seq<Tree>)
    returns (node: NodeId)
    requires ast.Valid() && name < |ast.texts| && ast.texts[name] == TextAt(tables, expression)
    requires Stand(ast.trees, lowered, trees)
    modifies ast
    ensures Added(ast, node, LetTree(tables, lowering, expression, trees))
  {
    var mutable := Get(tables.expressions.parameter, expression) == Some(1);
    var children := lowered;
    var declared := ResultAt(tables, expression);
    if declared != NO_INDEX {
      ghost var before := ast.trees;
      var annotation := LowerTypeBody(ast, tables, lowering, declared, 0);
      StillStand(before, ast.trees, lowered, trees);
      children := children + [annotation];
      assert Gather(ast.trees, children) == trees + [TypeTree(tables, lowering, declared, 0)];
    }
    node := ast.PushNode(ExpressionLet, Some(name), None, 0, if mutable then 1 else 0, children);
  }

  method LowerCall(ast: Ast, tables: Tables, lowering: Lowering, expression: ExpressionId, lowered: seq<NodeId>,
                   ghost trees: seq<Tree>)
    returns (node: Option<NodeId>)
    requires ast.Valid() && Stand(ast.trees, lowered, trees)
    modifies ast
    ensures Kept(ast) && Found(ast.trees, node, CallTree(tables, lowering, expression, trees))
  {
    var path := CalleePath(tables, lowering, expression);
    if path.None? {
      return None;
    }
    var call := PushSpelled(ast, NodeKind.ExpressionCall, path.value, 0, lowered);
    node := Some(call);
  }

  method LowerBlock(ast: Ast, tables: Tables, expression: ExpressionId, lowered: seq<NodeId>, ghost trees: seq<Tree>)
    returns (node: NodeId)
    requires ast.Valid() && |lowered| == |trees| == |ChildrenOf(tables, expression)| && Stand(ast.trees, lowered, trees)
    modifies ast
    ensures Added(ast, node,
                  Spelled(ExpressionBlock, [], StatementTrees(tables, ChildrenOf(tables, expression), trees, false)))
  {
    var statements := LowerStatements(ast, tables, ChildrenOf(tables, expression), lowered, false, trees);
    node := PushBare(ast, ExpressionBlock, statements);
  }

  method LowerDirect(ast: Ast, tables: Tables, expression: ExpressionId, kind: ExpressionKind, name: nat,
                     lowered: seq<NodeId>, ghost trees: seq<Tree>)
    returns (node: Option<NodeId>)
    requires ast.Valid() && name < |ast.texts| && ast.texts[name] == TextAt(tables, expression)
    requires Stand(ast.trees, lowered, trees)
    modifies ast
    ensures Kept(ast) && Found(ast.trees, node, DirectTree(tables, expression, kind, trees))
  {
    var direct := Direct(kind);
    if direct.None? {
      return None;
    }
    var id := ast.PushNode(direct.value.0, if direct.value.1 then Some(name) else None, None, 0, 0, lowered);
    node := Some(id);
  }

  method LowerAround(ast: Ast, tables: Tables, lowering: Lowering, expression: ExpressionId, kind: ExpressionKind,
                     name: nat, lowered: seq<NodeId>, ghost trees: seq<Tree>)
    returns (node: Option<NodeId>)
    requires ast.Valid() && name < |ast.texts| && ast.texts[name] == TextAt(tables, expression)
    requires |lowered| == |trees| == |ChildrenOf(tables, expression)| && Stand(ast.trees, lowered, trees)
    requires kind == Index || kind == Let || kind == Block
    modifies ast
    ensures Kept(ast) && Found(ast.trees, node, ShapeTree(tables, lowering, expression, kind, trees))
  {
    var id: NodeId;
    if kind == Index {
      id := LowerIndex(ast, lowered, trees);
    } else if kind == Let {
      id := LowerLet(ast, tables, lowering, expression, name, lowered, trees);
    } else {
      id := LowerBlock(ast, tables, expression, lowered, trees);
    }
    node := Some(id);
  }

  method LowerName(ast: Ast, tables: Tables, lowering: Lowering, expression: ExpressionId, kind: ExpressionKind,
                   name: nat, lowered: seq<NodeId>, ghost trees: seq<Tree>)
    returns (node: Option<NodeId>)
    requires ast.Valid() && name < |ast.texts| && ast.texts[name] == TextAt(tables, expression)
    requires |trees| == |ChildrenOf(tables, expression)| && Stand(ast.trees, lowered, trees)
    requires kind == Identifier || kind == Literal || kind == Method
    modifies ast
    ensures Kept(ast) && Found(ast.trees, node, ShapeTree(tables, lowering, expression, kind, trees))
  {
    var id: NodeId;
    if kind == Identifier {
      id := ast.PushNode(ExpressionPath, Some(name), None, 0, 0, []);
    } else if kind == Literal {
      id := ast.PushNode(ExpressionLiteral, Some(name), None, 0, 0, []);
    } else {
      var called := ToSnakeCase(TextAt(tables, expression));
      id := PushSpelled(ast, ExpressionMethod, called, 0, lowered);
    }
    node := Some(id);
  }

  method LowerShape(ast: Ast, tables: Tables, lowering: Lowering, expression: ExpressionId, kind: ExpressionKind,
                    name: nat, lowered: seq<NodeId>, ghost trees: seq<Tree>)
    returns (node: Option<NodeId>)
    requires ast.Valid() && name < |ast.texts| && ast.texts[name] == TextAt(tables, expression)
    requires |lowered| == |trees| == |ChildrenOf(tables, expression)| && Stand(ast.trees, lowered, trees)
    modifies ast
    ensures Kept(ast) && Found(ast.trees, node, ShapeTree(tables, lowering, expression, kind, trees))
  {
    if kind == StructLiteral {
      node := LowerLiteral(ast, tables, lowering, expression, lowered, trees);
    } else if kind == Call {
      node := LowerCall(ast, tables, lowering, expression, lowered, trees);
    } else if kind == Index || kind == Let || kind == Block {
      node := LowerAround(ast, tables, lowering, expression, kind, name, lowered, trees);
    } else if kind == Identifier || kind == Literal || kind == Method {
      node := LowerName(ast, tables, lowering, expression, kind, name, lowered, trees);
    } else {
      node := LowerDirect(ast, tables, expression, kind, name, lowered, trees);
    }
  }

  /** Each node stands for the tree expected at its place. */
  ghost predicate StandFor(trees: seq<Tree>, nodes: seq<NodeId>, expected: seq<Option<Tree>>) {
    && |nodes| == |expected|
    && forall i :: 0 <= i < |nodes| ==> nodes[i] < |trees| && expected[i] == Some(trees[nodes[i]])
  }

  lemma OneMoreStands(
    before: seq<Tree>, after: seq<Tree>, nodes: seq<NodeId>, node: NodeId, expected: seq<Option<Tree>>, i: nat)
    requires before <= after && i < |expected| && StandFor(before, nodes, expected[..i])
    requires node < |after| && expected[i] == Some(after[node])
    ensures StandFor(after, nodes + [node], expected[..i + 1])
  {
  }

  ghost predicate FoundAll(trees: seq<Tree>, nodes: Option<seq<NodeId>>, expected: Option<seq<Tree>>) {
    match nodes
    case None => expected.None?
    case Some(ids) => expected.Some? && Stand(trees, ids, expected.value)
  }

  method LowerChildren(ast: Ast, tables: Tables, lowering: Lowering, children: seq<ExpressionId>, depth: nat)
    returns (lowered: Option<seq<NodeId>>)
    requires ast.Valid()
    modifies ast
    ensures Kept(ast) && FoundAll(ast.trees, lowered, Collected(TreesOf(tables, lowering, children, depth)))
    decreases MAXIMUM_DEPTH - depth, 1
  {
    ghost var expected := TreesOf(tables, lowering, children, depth);
    var nodes := [];
    for i := 0 to |children|
      invariant Kept(ast) && StandFor(ast.trees, nodes, expected[..i])
    {
      ghost var before := ast.trees;
      var node := LowerExpression(ast, tables, lowering, children[i], depth);
      assert Found(ast.trees, node, expected[i]);
      if node.None? {
        return None;
      }
      OneMoreStands(before, ast.trees, nodes, node.value, expected, i);
      nodes := nodes + [node.value];
    }
    assert expected[..|children|] == expected;
    lowered := Some(nodes);
  }

  method LowerExpression(ast: Ast, tables: Tables, lowering: Lowering, expression: ExpressionId, depth: nat)
    returns (node: Option<NodeId>)
    requires ast.Valid()
    modifies ast
    ensures Kept(ast) && Found(ast.trees, node, ExpressionTree(tables, lowering, expression, depth))
    decreases MAXIMUM_DEPTH - depth, 0
  {
    if depth >= MAXIMUM_DEPTH {
      return None;
    }
    var kind := KindAt(tables, expression);
    if kind.None? {
      return None;
    }
    var lowered := LowerChildren(ast, tables, lowering, ChildrenOf(tables, expression), depth + 1);
    if lowered.None? {
      return None;
    }
    ghost var trees := Collected(TreesOf(tables, lowering, ChildrenOf(tables, expression), depth + 1)).value;
    var name := ast.PushString(TextAt(tables, expression));
    node := LowerShape(ast, tables, lowering, expression, kind.value, name, lowered.value, trees);
  }

  method LowerEnding(ast: Ast, tables: Tables, function_: FunctionId, children: seq<ExpressionId>,
                     written: seq<NodeId>, ghost trees: seq<Tree>)
    returns (statements: seq<NodeId>)
    requires ast.Valid() && children != [] && Stand(ast.trees, written, trees)
    modifies ast
    ensures Kept(ast) && Stand(ast.trees, statements, trees + Ending(tables, function_, children))
  {
    var returned := KindAt(tables, children[|children| - 1]) == Some(Return);
    if IsFallible(tables, function_) && !returned {
      ghost var before := ast.trees;
      var ok := PushSpelled(ast, ExpressionLiteral, Ascii("Ok(())"), 0, []);
      StillStand(before, ast.trees, written, trees);
      statements := written + [ok];
      assert Gather(ast.trees, statements) == trees + [Spelled(ExpressionLiteral, Ascii("Ok(())"), [])];
    } else {
      statements := written;
      assert trees + [] == trees;
    }
  }

  /** Writes a body: the statements it comes across as, or nothing, whatever was in the arena before. */
  method LowerBody(
    ast: Ast, tables: Tables, class_: seq<Ownership.OwnershipClass>, lowering: Lowering, function_: FunctionId)
    returns (statements: Option<seq<NodeId>>)
    requires ast.Valid()
    modifies ast
    ensures Kept(ast) && FoundAll(ast.trees, statements, BodyTrees(tables, class_, lowering, function_))
  {
    if !SignatureIsSettled(tables, class_, function_) {
      return None;
    }
    var body := Get(tables.functions.body, function_);
    if body.None? || !PassesTheGates(tables, class_, function_, body.value) {
      return None;
    }
    var children := ChildrenOf(tables, body.value);
    var lowered := LowerChildren(ast, tables, lowering, children, 1);
    if lowered.None? {
      return None;
    }
    ghost var trees := Collected(TreesOf(tables, lowering, children, 1)).value;
    var written := LowerStatements(ast, tables, children, lowered.value, true, trees);
    written := LowerEnding(ast, tables, function_, children, written, StatementTrees(tables, children, trees, true));
    statements := Some(written);
  }
}
