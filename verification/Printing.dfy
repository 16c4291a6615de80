/** Printing an expression, and the statements of a body, out of the arena. */
module Printing {
  import opened Basics
  import opened Arena
  import opened Render

  // ---- Prints in a row ----------------------------------------------------------------------------

  /** One print after another, or the first fault among them. */
  function All(parts: seq<Print>): Print {
    if parts == [] then Ok([])
    else
      var before, last := All(parts[..|parts| - 1]), parts[|parts| - 1];
      if before.Err? then before else if last.Err? then last else Ok(before.value + last.value)
  }

  function Said(text: string): Print { Ok(Ascii(text)) }

  function Indentation(level: nat): seq<u8> {
    if level == 0 then [] else Indentation(level - 1) + Ascii("    ")
  }

  lemma {:induction false} IndentationIsSpaces(level: nat)
    ensures |Indentation(level)| == 4 * level
    ensures forall i :: 0 <= i < |Indentation(level)| ==> Indentation(level)[i] == 32
  {
    if level > 0 {
      IndentationIsSpaces(level - 1);
    }
  }

  // ---- What an expression prints as ---------------------------------------------------------------

  function Only(tree: Tree, level: nat): Print
    decreases tree, 0, 0
  {
    if |tree.children| == 1 then ExpressionPrint(tree.children[0], level) else Err(WrongChildren)
  }

  function Child(tree: Tree, i: nat, level: nat): Print
    requires i < |tree.children|
    decreases tree, 0, 0
  {
    ExpressionPrint(tree.children[i], level)
  }

  /** One of the children from `from` on, a comma in front of all but the first of them. */
  function ItemPrint(tree: Tree, from: nat, i: nat, level: nat): Print
    requires i < |tree.children|
    decreases tree, 1, 0
  {
    All([if i == from then Ok([]) else Said(", "), Child(tree, i, level)])
  }

  function ItemParts(tree: Tree, from: nat, level: nat): seq<Print>
    requires from <= |tree.children|
    decreases tree, 2, 0
  {
    seq(|tree.children| - from, i requires 0 <= i < |tree.children| - from => ItemPrint(tree, from, from + i, level))
  }

  /** A value called like the field it fills is written once. */
  predicate IsShorthand(member: Tree) {
    |member.children| == 1 && member.children[0].kind == ExpressionPath && member.children[0].text == member.text
  }

  function ValuePrint(member: Tree, level: nat): Print
    decreases member, 3, 0
  {
    if IsShorthand(member) then Ok([]) else All([Said(": "), Only(member, level)])
  }

  function MemberPrint(member: Tree, level: nat): Print
    decreases member, 9, 0
  {
    if |member.children| != 1 then Err(WrongChildren)
    else All([Ok(Indentation(level)), Ok(member.text), ValuePrint(member, level), Said(",\n")])
  }

  function MemberParts(tree: Tree, level: nat): seq<Print>
    decreases tree, 2, 0
  {
    seq(|tree.children|, i requires 0 <= i < |tree.children| => MemberPrint(tree.children[i], level))
  }

  /** An arm of an `if`: a block, or anything else in braces of its own. */
  function ArmPrint(arm: Tree, level: nat): Print
    decreases arm, 9, 0
  {
    if arm.kind == ExpressionBlock then ExpressionPrint(arm, level)
    else
      All([Said("{\n"), Ok(Indentation(level + 1)), ExpressionPrint(arm, level + 1), Said("\n"),
           Ok(Indentation(level)), Said("}")])
  }

  /** One arm of a `match`, on a line of its own. */
  function CasePrint(arm: Tree, level: nat): Print
    decreases arm, 9, 0
  {
    All([Ok(Indentation(level)), ExpressionPrint(arm, level), Said(",\n")])
  }

  function CaseParts(tree: Tree, level: nat): seq<Print>
    requires tree.children != []
    decreases tree, 2, 0
  {
    seq(|tree.children| - 1, i requires 0 <= i < |tree.children| - 1 => CasePrint(tree.children[i + 1], level))
  }

  /** One line of a block or of a body. */
  function StatementPrint(statement: Tree, level: nat): Print
    decreases statement, 9, 0
  {
    if statement.kind == Statement then All([Ok(Indentation(level)), Only(statement, level), Said(";\n")])
    else All([Ok(Indentation(level)), ExpressionPrint(statement, level), Said("\n")])
  }

  function LineParts(tree: Tree, level: nat): seq<Print>
    decreases tree, 2, 0
  {
    seq(|tree.children|, i requires 0 <= i < |tree.children| => StatementPrint(tree.children[i], level))
  }

  function AsParts(tree: Tree, level: nat): seq<Print>
    decreases tree, 3, 0
  {
    if |tree.children| != 1 then [Err(WrongChildren)]
    else if tree.children[0].kind == ExpressionBinary || tree.children[0].kind == ExpressionUnary then
      [Said("("), Only(tree, level), Said(")"), Said(" as "), Ok(tree.text)]
    else [Only(tree, level), Said(" as "), Ok(tree.text)]
  }

  function ReturnParts(tree: Tree, level: nat): seq<Print>
    decreases tree, 3, 0
  {
    if tree.children == [] then [Said("return")] else [Said("return"), Said(" "), Child(tree, 0, level)]
  }

  /** The type a binding is declared with, where it has one. */
  function AnnotationPrint(tree: Tree): Print {
    if |tree.children| > 1 then All([Said(": "), TypePrint(tree.children[1])]) else Ok([])
  }

  function LetParts(tree: Tree, level: nat): seq<Print>
    decreases tree, 3, 0
  {
    if tree.children == [] then [Err(WrongChildren)]
    else
      [Said("let "), if tree.flags != 0 then Said("mut ") else Ok([]), Ok(tree.text), AnnotationPrint(tree),
       Said(" = "), Child(tree, 0, level)]
  }

  function ElsePrint(tree: Tree, level: nat): Print
    decreases tree, 2, 0
  {
    if |tree.children| > 2 then All([Said(" else "), ArmPrint(tree.children[2], level)]) else Ok([])
  }

  function BranchParts(tree: Tree, level: nat): seq<Print>
    decreases tree, 3, 0
  {
    if |tree.children| < 2 then [Err(WrongChildren)]
    else
      [Said("if "), Child(tree, 0, level), Said(" "), ArmPrint(tree.children[1], level), ElsePrint(tree, level)]
  }

  /** The arguments of a call in brackets, those from one on. */
  function BracketsPrint(tree: Tree, from: nat, level: nat): Print
    requires from <= |tree.children|
    decreases tree, 2, 1
  {
    All([Said("("), All(ItemParts(tree, from, level)), Said(")")])
  }

  function MethodParts(tree: Tree, level: nat): seq<Print>
    decreases tree, 3, 0
  {
    if tree.children == [] then [Err(WrongChildren)]
    else [Child(tree, 0, level), Said("."), Ok(tree.text), BracketsPrint(tree, 1, level)]
  }

  function MatchParts(tree: Tree, level: nat): seq<Print>
    decreases tree, 3, 0
  {
    if tree.children == [] then [Err(WrongChildren)]
    else
      [Said("match "), Child(tree, 0, level), Said(" {\n"), All(CaseParts(tree, level + 1)),
       Ok(Indentation(level)), Said("}")]
  }

  function BlockParts(tree: Tree, level: nat): seq<Print>
    decreases tree, 3, 0
  {
    if tree.children == [] then [Said("{}")]
    else [Said("{\n"), All(LineParts(tree, level + 1)), Ok(Indentation(level)), Said("}")]
  }

  /** An operator between its operands: an assignment without one is a plain one. */
  function OperatorParts(tree: Tree, operator: seq<u8>, level: nat): seq<Print>
    decreases tree, 3, 0
  {
    if |tree.children| != 2 then [Err(WrongChildren)]
    else [Child(tree, 0, level), Said(" "), Ok(operator), Said(" "), Child(tree, 1, level)]
  }

  function IndexParts(tree: Tree, level: nat): seq<Print>
    decreases tree, 3, 0
  {
    if |tree.children| != 2 then [Err(WrongChildren)]
    else [Child(tree, 0, level), Said("["), Child(tree, 1, level), Said("]")]
  }

  function WhileParts(tree: Tree, level: nat): seq<Print>
    decreases tree, 3, 0
  {
    if |tree.children| != 2 then [Err(WrongChildren)]
    else [Said("while "), Child(tree, 0, level), Said(" "), Child(tree, 1, level)]
  }

  function ForParts(tree: Tree, level: nat): seq<Print>
    decreases tree, 3, 0
  {
    if |tree.children| != 2 then [Err(WrongChildren)]
    else [Said("for "), Ok(tree.text), Said(" in "), Child(tree, 0, level), Said(" "), Child(tree, 1, level)]
  }

  function CallParts(tree: Tree, level: nat): seq<Print>
    decreases tree, 3, 0
  {
    [Ok(tree.text), BracketsPrint(tree, 0, level)]
  }

  function StructParts(tree: Tree, level: nat): seq<Print>
    decreases tree, 3, 0
  {
    [Ok(tree.text), Said(" {\n"), All(MemberParts(tree, level + 1)), Ok(Indentation(level)), Said("}")]
  }

  function TryParts(tree: Tree, level: nat): seq<Print>
    decreases tree, 3, 0
  {
    [Ok(tree.text), Said("::try_from("), Only(tree, level), Said(").unwrap()")]
  }

  function UnaryParts(tree: Tree, level: nat): seq<Print>
    decreases tree, 3, 0
  {
    [Ok(tree.text), Only(tree, level)]
  }

  function CaseOfParts(tree: Tree, level: nat): seq<Print>
    decreases tree, 3, 0
  {
    [Ok(tree.text), Said(" => "), Only(tree, level)]
  }

  function FieldParts(tree: Tree, level: nat): seq<Print>
    decreases tree, 3, 0
  {
    [Only(tree, level), Said("."), Ok(tree.text)]
  }

  function PlainParts(tree: Tree, level: nat): seq<Print>
    decreases tree, 3, 0
  {
    match tree.kind
    case ExpressionGroup => [Said("("), Only(tree, level), Said(")")]
    case ExpressionQuestion => [Only(tree, level), Said("?")]
    case _ => [Err(Unprintable(tree.kind))]
  }

  function ShortParts(tree: Tree, level: nat): seq<Print>
    decreases tree, 4, 0
  {
    match tree.kind
    case ExpressionTry => TryParts(tree, level)
    case ExpressionArm => CaseOfParts(tree, level)
    case ExpressionUnary => UnaryParts(tree, level)
    case ExpressionField => FieldParts(tree, level)
    case ExpressionLiteral => [Ok(tree.text)]
    case ExpressionPath => [Ok(tree.text)]
    case _ => PlainParts(tree, level)
  }

  /** The shapes written over several lines, and bindings. */
  function LongParts(tree: Tree, level: nat): seq<Print>
    decreases tree, 5, 0
  {
    match tree.kind
    case ExpressionStruct => StructParts(tree, level)
    case ExpressionLet => LetParts(tree, level)
    case ExpressionBranch => BranchParts(tree, level)
    case ExpressionMatch => MatchParts(tree, level)
    case ExpressionBlock => BlockParts(tree, level)
    case _ => ShortParts(tree, level)
  }

  function CallOrLongParts(tree: Tree, level: nat): seq<Print>
    decreases tree, 6, 0
  {
    match tree.kind
    case ExpressionCall => CallParts(tree, level)
    case ExpressionMethod => MethodParts(tree, level)
    case ExpressionAs => AsParts(tree, level)
    case ExpressionReturn => ReturnParts(tree, level)
    case _ => LongParts(tree, level)
  }

  function Parts(tree: Tree, level: nat): seq<Print>
    decreases tree, 7, 0
  {
    match tree.kind
    case ExpressionBinary => OperatorParts(tree, tree.text, level)
    case ExpressionAssign => OperatorParts(tree, if tree.text == [] then Ascii("=") else tree.text, level)
    case ExpressionIndex => IndexParts(tree, level)
    case ExpressionWhile => WhileParts(tree, level)
    case ExpressionFor => ForParts(tree, level)
    case _ => CallOrLongParts(tree, level)
  }

  /** What an expression is written as, its later lines at that level of indentation. */
  function ExpressionPrint(tree: Tree, level: nat): Print
    decreases tree, 8, 0
  {
    All(Parts(tree, level))
  }

  /** The statements of a body, one after another. */
  function StatementParts(statements: seq<Tree>, level: nat): seq<Print> {
    seq(|statements|, i requires 0 <= i < |statements| => StatementPrint(statements[i], level))
  }

  // ---- Writing one part after another -------------------------------------------------------------

  /** The first `done` parts have been written. */
  ghost predicate Begun(start: seq<u8>, now: seq<u8>, parts: seq<Print>, done: nat) {
    done <= |parts| && All(parts[..done]).Ok? && now == start + All(parts[..done]).value
  }

  lemma AllNext(parts: seq<Print>, done: nat)
    requires done < |parts| && All(parts[..done]).Ok?
    ensures All(parts[..done + 1])
         == if parts[done].Err? then parts[done] else Ok(All(parts[..done]).value + parts[done].value)
  {
    assert parts[..done + 1][..done] == parts[..done];
  }

  lemma {:induction false} FaultStays(parts: seq<Print>, done: nat)
    requires done <= |parts| && All(parts[..done]).Err?
    ensures All(parts) == All(parts[..done])
    decreases |parts| - done
  {
    if done == |parts| {
      assert parts[..done] == parts;
    } else {
      assert parts[..done + 1][..done] == parts[..done];
      FaultStays(parts, done + 1);
    }
  }

  lemma BeginningIsEmpty(start: seq<u8>, parts: seq<Print>)
    ensures Begun(start, start, parts, 0)
  {
    assert parts[..0] == [] && start + [] == start;
  }

  lemma OneMoreWritten(start: seq<u8>, before: seq<u8>, more: seq<u8>, parts: seq<Print>, done: nat)
    requires Begun(start, before, parts, done) && done < |parts| && parts[done] == Ok(more)
    ensures Begun(start, before + more, parts, done + 1)
  {
    AllNext(parts, done);
    var written := All(parts[..done]).value;
    assert start + written + more == start + (written + more);
  }

  lemma PartFailed(parts: seq<Print>, done: nat)
    requires done < |parts| && All(parts[..done]).Ok? && parts[done].Err?
    ensures All(parts) == parts[done]
  {
    AllNext(parts, done);
    FaultStays(parts, done + 1);
  }

  lemma PartWritten(
    start: seq<u8>, before: seq<u8>, after: seq<u8>, parts: seq<Print>, done: nat, result: Rendered)
    requires Begun(start, before, parts, done) && done < |parts| && Wrote(result, before, after, parts[done])
    ensures result.Ok? ==> Begun(start, after, parts, done + 1)
    ensures result.Err? ==> Wrote(result, start, after, All(parts))
  {
    if result.Ok? {
      OneMoreWritten(start, before, parts[done].value, parts, done);
    } else {
      PartFailed(parts, done);
    }
  }

  lemma AllWritten(start: seq<u8>, now: seq<u8>, parts: seq<Print>)
    requires Begun(start, now, parts, |parts|)
    ensures Wrote(Ok(()), start, now, All(parts))
  {
    assert parts[..|parts|] == parts;
  }

  lemma OneFault(fault: Fault)
    ensures All([Err(fault)]) == Err(fault)
  {
    var parts: seq<Print> := [Err(fault)];
    assert parts[..0] == [];
  }

  method Say(out: Output, text: seq<u8>, ghost start: seq<u8>, ghost parts: seq<Print>, ghost done: nat)
    requires Begun(start, out.bytes, parts, done) && done < |parts| && parts[done] == Ok(text)
    modifies out
    ensures Begun(start, out.bytes, parts, done + 1)
  {
    ghost var before := out.bytes;
    out.Write(text);
    PartWritten(start, before, out.bytes, parts, done, Ok(()));
  }

  method Look(ast: Ast, node: NodeId) returns (kind: NodeKind, text: seq<u8>)
    requires ast.Valid() && node < |ast.trees|
    ensures kind == ast.trees[node].kind && text == ast.trees[node].text
  {
    text := ast.TextOf(node);
    kind := ast.kind[node];
  }

  method ChildCount(ast: Ast, node: NodeId) returns (count: nat)
    requires ast.Valid() && node < |ast.trees|
    ensures count == |ast.trees[node].children|
  {
    count := |ast.NodeChildren(node)|;
  }

  /** Writes one node as the next part. */
  method RenderNext(out: Output, ast: Ast, node: NodeId, level: nat,
                    ghost start: seq<u8>, ghost parts: seq<Print>, ghost done: nat)
    returns (result: Rendered)
    requires ast.Valid() && node < |ast.trees|
    requires Begun(start, out.bytes, parts, done) && done < |parts|
    requires parts[done] == ExpressionPrint(ast.trees[node], level)
    modifies out
    ensures result.Ok? ==> Begun(start, out.bytes, parts, done + 1)
    ensures result.Err? ==> Wrote(result, start, out.bytes, All(parts))
    decreases node, 7
  {
    ghost var before := out.bytes;
    result := RenderExpression(out, ast, node, level);
    PartWritten(start, before, out.bytes, parts, done, result);
  }

  /** Writes one child of a node as the next part. */
  method RenderChild(out: Output, ast: Ast, node: NodeId, i: nat, level: nat,
                     ghost start: seq<u8>, ghost parts: seq<Print>, ghost done: nat)
    returns (result: Rendered)
    requires ast.Valid() && node < |ast.trees| && i < |ast.trees[node].children|
    requires Begun(start, out.bytes, parts, done) && done < |parts| && parts[done] == Child(ast.trees[node], i, level)
    modifies out
    ensures result.Ok? ==> Begun(start, out.bytes, parts, done + 1)
    ensures result.Err? ==> Wrote(result, start, out.bytes, All(parts))
    decreases node, 0
  {
    var children := ast.NodeChildren(node);
    result := RenderNext(out, ast, children[i], level, start, parts, done);
  }

  /** Writes the only child of a node as the next part. */
  method RenderOnly(out: Output, ast: Ast, node: NodeId, level: nat,
                    ghost start: seq<u8>, ghost parts: seq<Print>, ghost done: nat)
    returns (result: Rendered)
    requires ast.Valid() && node < |ast.trees|
    requires Begun(start, out.bytes, parts, done) && done < |parts| && parts[done] == Only(ast.trees[node], level)
    modifies out
    ensures result.Ok? ==> Begun(start, out.bytes, parts, done + 1)
    ensures result.Err? ==> Wrote(result, start, out.bytes, All(parts))
    decreases node, 0
  {
    match OnlyChild(ast, node)
    case Err(error) =>
      PartWritten(start, out.bytes, out.bytes, parts, done, Err(error));
      result := Err(error);
    case Ok(child) => result := RenderNext(out, ast, child, level, start, parts, done);
  }

  // ---- Printing from the arena --------------------------------------------------------------------

  method RenderItem(out: Output, ast: Ast, node: NodeId, from: nat, i: nat, level: nat) returns (result: Rendered)
    requires ast.Valid() && node < |ast.trees| && i < |ast.trees[node].children|
    modifies out
    ensures Wrote(result, old(out.bytes), out.bytes, ItemPrint(ast.trees[node], from, i, level))
    decreases node, 1
  {
    ghost var start, parts := out.bytes, [if i == from then Ok([]) else Said(", "), Child(ast.trees[node], i, level)];
    BeginningIsEmpty(start, parts);
    Say(out, if i == from then [] else Ascii(", "), start, parts, 0);
    result := RenderChild(out, ast, node, i, level, start, parts, 1);
    if result.Ok? {
      AllWritten(start, out.bytes, parts);
    }
  }

  method RenderItems(out: Output, ast: Ast, node: NodeId, from: nat, level: nat) returns (result: Rendered)
    requires ast.Valid() && node < |ast.trees| && from <= |ast.trees[node].children|
    modifies out
    ensures Wrote(result, old(out.bytes), out.bytes, All(ItemParts(ast.trees[node], from, level)))
    decreases node, 2
  {
    ghost var tree, start := ast.trees[node], out.bytes;
    ghost var items := ItemParts(tree, from, level);
    var all := ChildCount(ast, node);
    var count := all - from;
    BeginningIsEmpty(start, items);
    for i := 0 to count
      invariant Begun(start, out.bytes, items, i)
    {
      ghost var before := out.bytes;
      result := RenderItem(out, ast, node, from, from + i, level);
      PartWritten(start, before, out.bytes, items, i, result);
      if result.Err? {
        return;
      }
    }
    AllWritten(start, out.bytes, items);
    result := Ok(());
  }

  method RenderMembers(out: Output, ast: Ast, node: NodeId, level: nat) returns (result: Rendered)
    requires ast.Valid() && node < |ast.trees|
    modifies out
    ensures Wrote(result, old(out.bytes), out.bytes, All(MemberParts(ast.trees[node], level)))
    decreases node, 1
  {
    ghost var tree, start := ast.trees[node], out.bytes;
    ghost var members := MemberParts(tree, level);
    var children := ast.NodeChildren(node);
    BeginningIsEmpty(start, members);
    for i := 0 to |children|
      invariant Begun(start, out.bytes, members, i)
    {
      ghost var before := out.bytes;
      result := RenderMember(out, ast, children[i], level);
      PartWritten(start, before, out.bytes, members, i, result);
      if result.Err? {
        return;
      }
    }
    AllWritten(start, out.bytes, members);
    result := Ok(());
  }

  method RenderValue(out: Output, ast: Ast, node: NodeId, level: nat) returns (result: Rendered)
    requires ast.Valid() && node < |ast.trees| && |ast.trees[node].children| == 1
    modifies out
    ensures Wrote(result, old(out.bytes), out.bytes, ValuePrint(ast.trees[node], level))
    decreases node, 7
  {
    ghost var member, start := ast.trees[node], out.bytes;
    var text, children := ast.TextOf(node), ast.NodeChildren(node);
    var valueText := ast.TextOf(children[0]);
    if ast.kind[children[0]] == ExpressionPath && valueText == text {
      return Ok(());
    }
    ghost var parts := [Said(": "), Only(member, level)];
    BeginningIsEmpty(start, parts);
    Say(out, Ascii(": "), start, parts, 0);
    result := RenderOnly(out, ast, node, level, start, parts, 1);
    if result.Ok? {
      AllWritten(start, out.bytes, parts);
    }
  }

  method RenderMember(out: Output, ast: Ast, node: NodeId, level: nat) returns (result: Rendered)
    requires ast.Valid() && node < |ast.trees|
    modifies out
    ensures Wrote(result, old(out.bytes), out.bytes, MemberPrint(ast.trees[node], level))
    decreases node, 8
  {
    ghost var member, start := ast.trees[node], out.bytes;
    var only := OnlyChild(ast, node);
    if only.Err? {
      return Err(only.error);
    }
    ghost var parts := [Ok(Indentation(level)), Ok(member.text), ValuePrint(member, level), Said(",\n")];
    BeginningIsEmpty(start, parts);
    Say(out, Indentation(level), start, parts, 0);
    var _, text := Look(ast, node);
    Say(out, text, start, parts, 1);
    ghost var before := out.bytes;
    result := RenderValue(out, ast, node, level);
    PartWritten(start, before, out.bytes, parts, 2, result);
    if result.Ok? {
      Say(out, Ascii(",\n"), start, parts, 3);
      AllWritten(start, out.bytes, parts);
    }
  }

  method RenderArm(out: Output, ast: Ast, node: NodeId, level: nat) returns (result: Rendered)
    requires ast.Valid() && node < |ast.trees|
    modifies out
    ensures Wrote(result, old(out.bytes), out.bytes, ArmPrint(ast.trees[node], level))
    decreases node, 8
  {
    ghost var arm, start := ast.trees[node], out.bytes;
    var kind := KindOf(ast, node);
    if kind == Ok(ExpressionBlock) {
      result := RenderExpression(out, ast, node, level);
      return;
    }
    ghost var parts := [Said("{\n"), Ok(Indentation(level + 1)), ExpressionPrint(arm, level + 1), Said("\n"),
                        Ok(Indentation(level)), Said("}")];
    BeginningIsEmpty(start, parts);
    Say(out, Ascii("{\n"), start, parts, 0);
    Say(out, Indentation(level + 1), start, parts, 1);
    result := RenderNext(out, ast, node, level + 1, start, parts, 2);
    if result.Ok? {
      Say(out, Ascii("\n"), start, parts, 3);
      Say(out, Indentation(level), start, parts, 4);
      Say(out, Ascii("}"), start, parts, 5);
      AllWritten(start, out.bytes, parts);
    }
  }

  method RenderCase(out: Output, ast: Ast, node: NodeId, level: nat) returns (result: Rendered)
    requires ast.Valid() && node < |ast.trees|
    modifies out
    ensures Wrote(result, old(out.bytes), out.bytes, CasePrint(ast.trees[node], level))
    decreases node, 8
  {
    ghost var start := out.bytes;
    ghost var parts := [Ok(Indentation(level)), ExpressionPrint(ast.trees[node], level), Said(",\n")];
    BeginningIsEmpty(start, parts);
    Say(out, Indentation(level), start, parts, 0);
    result := RenderNext(out, ast, node, level, start, parts, 1);
    if result.Ok? {
      Say(out, Ascii(",\n"), start, parts, 2);
      AllWritten(start, out.bytes, parts);
    }
  }

  method RenderCases(out: Output, ast: Ast, node: NodeId, level: nat) returns (result: Rendered)
    requires ast.Valid() && node < |ast.trees| && ast.trees[node].children != []
    modifies out
    ensures Wrote(result, old(out.bytes), out.bytes, All(CaseParts(ast.trees[node], level)))
    decreases node, 1
  {
    ghost var tree, start := ast.trees[node], out.bytes;
    ghost var cases := CaseParts(tree, level);
    var children := ast.NodeChildren(node)[1..];
    BeginningIsEmpty(start, cases);
    for i := 0 to |children|
      invariant Begun(start, out.bytes, cases, i)
    {
      ghost var before := out.bytes;
      result := RenderCase(out, ast, children[i], level);
      PartWritten(start, before, out.bytes, cases, i, result);
      if result.Err? {
        return;
      }
    }
    AllWritten(start, out.bytes, cases);
    result := Ok(());
  }

  method RenderStatement(out: Output, ast: Ast, node: NodeId, level: nat) returns (result: Rendered)
    requires ast.Valid() && node < |ast.trees|
    modifies out
    ensures Wrote(result, old(out.bytes), out.bytes, StatementPrint(ast.trees[node], level))
    decreases node, 8
  {
    ghost var statement, start := ast.trees[node], out.bytes;
    var kind := KindOf(ast, node);
    if kind == Ok(Statement) {
      ghost var parts := [Ok(Indentation(level)), Only(statement, level), Said(";\n")];
      BeginningIsEmpty(start, parts);
      Say(out, Indentation(level), start, parts, 0);
      result := RenderOnly(out, ast, node, level, start, parts, 1);
      if result.Ok? {
        Say(out, Ascii(";\n"), start, parts, 2);
        AllWritten(start, out.bytes, parts);
      }
    } else {
      ghost var parts := [Ok(Indentation(level)), ExpressionPrint(statement, level), Said("\n")];
      BeginningIsEmpty(start, parts);
      Say(out, Indentation(level), start, parts, 0);
      result := RenderNext(out, ast, node, level, start, parts, 1);
      if result.Ok? {
        Say(out, Ascii("\n"), start, parts, 2);
        AllWritten(start, out.bytes, parts);
      }
    }
  }

  method RenderLines(out: Output, ast: Ast, node: NodeId, level: nat) returns (result: Rendered)
    requires ast.Valid() && node < |ast.trees|
    modifies out
    ensures Wrote(result, old(out.bytes), out.bytes, All(LineParts(ast.trees[node], level)))
    decreases node, 1
  {
    ghost var tree, start := ast.trees[node], out.bytes;
    ghost var lines := LineParts(tree, level);
    var children := ast.NodeChildren(node);
    BeginningIsEmpty(start, lines);
    for i := 0 to |children|
      invariant Begun(start, out.bytes, lines, i)
    {
      ghost var before := out.bytes;
      result := RenderStatement(out, ast, children[i], level);
      PartWritten(start, before, out.bytes, lines, i, result);
      if result.Err? {
        return;
      }
    }
    AllWritten(start, out.bytes, lines);
    result := Ok(());
  }

  // ---- One method per shape -----------------------------------------------------------------------

  method RenderAs(out: Output, ast: Ast, node: NodeId, level: nat, ghost parts: seq<Print>)
    returns (result: Rendered)
    requires ast.Valid() && node < |ast.trees|
    requires parts == AsParts(ast.trees[node], level)
    modifies out
    ensures Wrote(result, old(out.bytes), out.bytes, All(parts))
    decreases node, 2
  {
    ghost var tree, start := ast.trees[node], out.bytes;
    match OnlyChild(ast, node)
    case Err(error) =>
      OneFault(WrongChildren);
      return Err(error);
    case Ok(value) =>
      var text, kind := ast.TextOf(node), KindOf(ast, value);
      var bracketed := kind == Ok(ExpressionBinary) || kind == Ok(ExpressionUnary);
      ghost var at := if bracketed then 1 else 0;
      BeginningIsEmpty(start, parts);
      if bracketed {
        Say(out, Ascii("("), start, parts, 0);
      }
      result := RenderOnly(out, ast, node, level, start, parts, at);
      if result.Err? {
        return;
      }
      if bracketed {
        Say(out, Ascii(")"), start, parts, 2);
      }
      ghost var end := |parts| - 2;
      Say(out, Ascii(" as "), start, parts, end);
      Say(out, text, start, parts, end + 1);
      AllWritten(start, out.bytes, parts);
  }

  method RenderReturn(out: Output, ast: Ast, node: NodeId, level: nat, ghost parts: seq<Print>)
    returns (result: Rendered)
    requires ast.Valid() && node < |ast.trees|
    requires parts == ReturnParts(ast.trees[node], level)
    modifies out
    ensures Wrote(result, old(out.bytes), out.bytes, All(parts))
    decreases node, 2
  {
    ghost var start := out.bytes;
    var count := ChildCount(ast, node);
    BeginningIsEmpty(start, parts);
    Say(out, Ascii("return"), start, parts, 0);
    result := Ok(());
    if count != 0 {
      Say(out, Ascii(" "), start, parts, 1);
      result := RenderChild(out, ast, node, 0, level, start, parts, 2);
    }
    if result.Ok? {
      AllWritten(start, out.bytes, parts);
    }
  }

  method RenderAnnotation(out: Output, ast: Ast, node: NodeId) returns (result: Rendered)
    requires ast.Valid() && node < |ast.trees|
    modifies out
    ensures Wrote(result, old(out.bytes), out.bytes, AnnotationPrint(ast.trees[node]))
  {
    ghost var tree, start := ast.trees[node], out.bytes;
    var children := ast.NodeChildren(node);
    if |children| > 1 {
      ghost var parts := [Said(": "), TypePrint(tree.children[1])];
      BeginningIsEmpty(start, parts);
      Say(out, Ascii(": "), start, parts, 0);
      ghost var before := out.bytes;
      result := RenderType(out, ast, children[1]);
      PartWritten(start, before, out.bytes, parts, 1, result);
      if result.Ok? {
        AllWritten(start, out.bytes, parts);
      }
    } else {
      result := Ok(());
    }
  }

  /** The flag on a binding says whether it can be assigned again. */
  method RenderBinding(out: Output, ast: Ast, node: NodeId, ghost start: seq<u8>, ghost parts: seq<Print>)
    requires ast.Valid() && node < |ast.trees| && |parts| > 3 && Begun(start, out.bytes, parts, 0)
    requires parts[0] == Said("let ") && parts[2] == Ok(ast.trees[node].text)
    requires parts[1] == if ast.trees[node].flags != 0 then Said("mut ") else Ok([])
    modifies out
    ensures Begun(start, out.bytes, parts, 3)
  {
    var text := ast.TextOf(node);
    var flags := ast.flags[node];
    Say(out, Ascii("let "), start, parts, 0);
    Say(out, if flags != 0 then Ascii("mut ") else [], start, parts, 1);
    Say(out, text, start, parts, 2);
  }

  method RenderLet(out: Output, ast: Ast, node: NodeId, level: nat, ghost parts: seq<Print>)
    returns (result: Rendered)
    requires ast.Valid() && node < |ast.trees| && parts == LetParts(ast.trees[node], level)
    modifies out
    ensures Wrote(result, old(out.bytes), out.bytes, All(parts))
    decreases node, 2
  {
    ghost var start := out.bytes;
    var count := ChildCount(ast, node);
    if count == 0 {
      OneFault(WrongChildren);
      return Err(MissingChild(node));
    }
    BeginningIsEmpty(start, parts);
    RenderBinding(out, ast, node, start, parts);
    ghost var before := out.bytes;
    result := RenderAnnotation(out, ast, node);
    PartWritten(start, before, out.bytes, parts, 3, result);
    if result.Err? {
      return;
    }
    Say(out, Ascii(" = "), start, parts, 4);
    result := RenderChild(out, ast, node, 0, level, start, parts, 5);
    if result.Ok? {
      AllWritten(start, out.bytes, parts);
    }
  }

  method RenderElse(out: Output, ast: Ast, node: NodeId, level: nat) returns (result: Rendered)
    requires ast.Valid() && node < |ast.trees|
    modifies out
    ensures Wrote(result, old(out.bytes), out.bytes, ElsePrint(ast.trees[node], level))
    decreases node, 1
  {
    ghost var tree, start := ast.trees[node], out.bytes;
    var children := ast.NodeChildren(node);
    if |children| <= 2 {
      return Ok(());
    }
    ghost var parts := [Said(" else "), ArmPrint(tree.children[2], level)];
    BeginningIsEmpty(start, parts);
    Say(out, Ascii(" else "), start, parts, 0);
    ghost var before := out.bytes;
    result := RenderArm(out, ast, children[2], level);
    PartWritten(start, before, out.bytes, parts, 1, result);
    if result.Ok? {
      AllWritten(start, out.bytes, parts);
    }
  }

  method RenderBranch(out: Output, ast: Ast, node: NodeId, level: nat, ghost parts: seq<Print>)
    returns (result: Rendered)
    requires ast.Valid() && node < |ast.trees|
    requires parts == BranchParts(ast.trees[node], level)
    modifies out
    ensures Wrote(result, old(out.bytes), out.bytes, All(parts))
    decreases node, 2
  {
    ghost var start := out.bytes;
    var children := ast.NodeChildren(node);
    if |children| < 2 {
      OneFault(WrongChildren);
      return Err(MissingChild(node));
    }
    BeginningIsEmpty(start, parts);
    Say(out, Ascii("if "), start, parts, 0);
    result := RenderChild(out, ast, node, 0, level, start, parts, 1);
    if result.Err? {
      return;
    }
    Say(out, Ascii(" "), start, parts, 2);
    ghost var before := out.bytes;
    result := RenderArm(out, ast, children[1], level);
    PartWritten(start, before, out.bytes, parts, 3, result);
    if result.Err? {
      return;
    }
    before := out.bytes;
    result := RenderElse(out, ast, node, level);
    PartWritten(start, before, out.bytes, parts, 4, result);
    if result.Ok? {
      AllWritten(start, out.bytes, parts);
    }
  }

  method RenderBrackets(out: Output, ast: Ast, node: NodeId, from: nat, level: nat) returns (result: Rendered)
    requires ast.Valid() && node < |ast.trees| && from <= |ast.trees[node].children|
    modifies out
    ensures Wrote(result, old(out.bytes), out.bytes, BracketsPrint(ast.trees[node], from, level))
    decreases node, 3
  {
    ghost var tree, start := ast.trees[node], out.bytes;
    ghost var parts := [Said("("), All(ItemParts(tree, from, level)), Said(")")];
    BeginningIsEmpty(start, parts);
    Say(out, Ascii("("), start, parts, 0);
    ghost var before := out.bytes;
    result := RenderItems(out, ast, node, from, level);
    PartWritten(start, before, out.bytes, parts, 1, result);
    if result.Ok? {
      Say(out, Ascii(")"), start, parts, 2);
      AllWritten(start, out.bytes, parts);
    }
  }

  method RenderMethod(out: Output, ast: Ast, node: NodeId, level: nat, ghost parts: seq<Print>)
    returns (result: Rendered)
    requires ast.Valid() && node < |ast.trees| && parts == MethodParts(ast.trees[node], level)
    modifies out
    ensures Wrote(result, old(out.bytes), out.bytes, All(parts))
    decreases node, 4
  {
    ghost var start := out.bytes;
    var count := ChildCount(ast, node);
    if count == 0 {
      OneFault(WrongChildren);
      return Err(MissingChild(node));
    }
    var _, text := Look(ast, node);
    BeginningIsEmpty(start, parts);
    result := RenderChild(out, ast, node, 0, level, start, parts, 0);
    if result.Err? {
      return;
    }
    Say(out, Ascii("."), start, parts, 1);
    Say(out, text, start, parts, 2);
    ghost var before := out.bytes;
    result := RenderBrackets(out, ast, node, 1, level);
    PartWritten(start, before, out.bytes, parts, 3, result);
    if result.Ok? {
      AllWritten(start, out.bytes, parts);
    }
  }

  method RenderMatch(out: Output, ast: Ast, node: NodeId, level: nat, ghost parts: seq<Print>)
    returns (result: Rendered)
    requires ast.Valid() && node < |ast.trees|
    requires parts == MatchParts(ast.trees[node], level)
    modifies out
    ensures Wrote(result, old(out.bytes), out.bytes, All(parts))
    decreases node, 2
  {
    ghost var tree, start := ast.trees[node], out.bytes;
    var count := ChildCount(ast, node);
    if count == 0 {
      OneFault(WrongChildren);
      return Err(MissingChild(node));
    }
    BeginningIsEmpty(start, parts);
    Say(out, Ascii("match "), start, parts, 0);
    result := RenderChild(out, ast, node, 0, level, start, parts, 1);
    if result.Err? {
      return;
    }
    Say(out, Ascii(" {\n"), start, parts, 2);
    ghost var before := out.bytes;
    result := RenderCases(out, ast, node, level + 1);
    PartWritten(start, before, out.bytes, parts, 3, result);
    if result.Ok? {
      Say(out, Indentation(level), start, parts, 4);
      Say(out, Ascii("}"), start, parts, 5);
      AllWritten(start, out.bytes, parts);
    }
  }

  method RenderBlock(out: Output, ast: Ast, node: NodeId, level: nat, ghost parts: seq<Print>)
    returns (result: Rendered)
    requires ast.Valid() && node < |ast.trees|
    requires parts == BlockParts(ast.trees[node], level)
    modifies out
    ensures Wrote(result, old(out.bytes), out.bytes, All(parts))
    decreases node, 2
  {
    ghost var start := out.bytes;
    var count := ChildCount(ast, node);
    BeginningIsEmpty(start, parts);
    if count == 0 {
      Say(out, Ascii("{}"), start, parts, 0);
      AllWritten(start, out.bytes, parts);
      return Ok(());
    }
    Say(out, Ascii("{\n"), start, parts, 0);
    ghost var before := out.bytes;
    result := RenderLines(out, ast, node, level + 1);
    PartWritten(start, before, out.bytes, parts, 1, result);
    if result.Ok? {
      Say(out, Indentation(level), start, parts, 2);
      Say(out, Ascii("}"), start, parts, 3);
      AllWritten(start, out.bytes, parts);
    }
  }

  method RenderOperator(out: Output, ast: Ast, node: NodeId, operator: seq<u8>, level: nat, ghost parts: seq<Print>)
    returns (result: Rendered)
    requires ast.Valid() && node < |ast.trees|
    requires parts == OperatorParts(ast.trees[node], operator, level)
    modifies out
    ensures Wrote(result, old(out.bytes), out.bytes, All(parts))
    decreases node, 2
  {
    ghost var start := out.bytes;
    var count := ChildCount(ast, node);
    if count != 2 {
      OneFault(WrongChildren);
      return Err(MissingChild(node));
    }
    BeginningIsEmpty(start, parts);
    result := RenderChild(out, ast, node, 0, level, start, parts, 0);
    if result.Err? {
      return;
    }
    Say(out, Ascii(" "), start, parts, 1);
    Say(out, operator, start, parts, 2);
    Say(out, Ascii(" "), start, parts, 3);
    result := RenderChild(out, ast, node, 1, level, start, parts, 4);
    if result.Ok? {
      AllWritten(start, out.bytes, parts);
    }
  }

  method RenderIndex(out: Output, ast: Ast, node: NodeId, level: nat, ghost parts: seq<Print>)
    returns (result: Rendered)
    requires ast.Valid() && node < |ast.trees|
    requires parts == IndexParts(ast.trees[node], level)
    modifies out
    ensures Wrote(result, old(out.bytes), out.bytes, All(parts))
    decreases node, 2
  {
    ghost var start := out.bytes;
    var count := ChildCount(ast, node);
    if count != 2 {
      OneFault(WrongChildren);
      return Err(MissingChild(node));
    }
    BeginningIsEmpty(start, parts);
    result := RenderChild(out, ast, node, 0, level, start, parts, 0);
    if result.Err? {
      return;
    }
    Say(out, Ascii("["), start, parts, 1);
    result := RenderChild(out, ast, node, 1, level, start, parts, 2);
    if result.Ok? {
      Say(out, Ascii("]"), start, parts, 3);
      AllWritten(start, out.bytes, parts);
    }
  }

  method RenderWhile(out: Output, ast: Ast, node: NodeId, level: nat, ghost parts: seq<Print>)
    returns (result: Rendered)
    requires ast.Valid() && node < |ast.trees|
    requires parts == WhileParts(ast.trees[node], level)
    modifies out
    ensures Wrote(result, old(out.bytes), out.bytes, All(parts))
    decreases node, 2
  {
    ghost var start := out.bytes;
    var count := ChildCount(ast, node);
    if count != 2 {
      OneFault(WrongChildren);
      return Err(MissingChild(node));
    }
    BeginningIsEmpty(start, parts);
    Say(out, Ascii("while "), start, parts, 0);
    result := RenderChild(out, ast, node, 0, level, start, parts, 1);
    if result.Err? {
      return;
    }
    Say(out, Ascii(" "), start, parts, 2);
    result := RenderChild(out, ast, node, 1, level, start, parts, 3);
    if result.Ok? {
      AllWritten(start, out.bytes, parts);
    }
  }

  method RenderFor(out: Output, ast: Ast, node: NodeId, level: nat, ghost parts: seq<Print>)
    returns (result: Rendered)
    requires ast.Valid() && node < |ast.trees|
    requires parts == ForParts(ast.trees[node], level)
    modifies out
    ensures Wrote(result, old(out.bytes), out.bytes, All(parts))
    decreases node, 2
  {
    ghost var start := out.bytes;
    var count := ChildCount(ast, node);
    if count != 2 {
      OneFault(WrongChildren);
      return Err(MissingChild(node));
    }
    BeginningIsEmpty(start, parts);
    Say(out, Ascii("for "), start, parts, 0);
    var _, text := Look(ast, node);
    Say(out, text, start, parts, 1);
    Say(out, Ascii(" in "), start, parts, 2);
    result := RenderChild(out, ast, node, 0, level, start, parts, 3);
    if result.Err? {
      return;
    }
    Say(out, Ascii(" "), start, parts, 4);
    result := RenderChild(out, ast, node, 1, level, start, parts, 5);
    if result.Ok? {
      AllWritten(start, out.bytes, parts);
    }
  }

  method RenderCall(out: Output, ast: Ast, node: NodeId, level: nat, ghost parts: seq<Print>)
    returns (result: Rendered)
    requires ast.Valid() && node < |ast.trees| && parts == CallParts(ast.trees[node], level)
    modifies out
    ensures Wrote(result, old(out.bytes), out.bytes, All(parts))
    decreases node, 4
  {
    ghost var start := out.bytes;
    var _, text := Look(ast, node);
    BeginningIsEmpty(start, parts);
    Say(out, text, start, parts, 0);
    ghost var before := out.bytes;
    result := RenderBrackets(out, ast, node, 0, level);
    PartWritten(start, before, out.bytes, parts, 1, result);
    if result.Ok? {
      AllWritten(start, out.bytes, parts);
    }
  }

  method RenderStruct(out: Output, ast: Ast, node: NodeId, level: nat, ghost parts: seq<Print>)
    returns (result: Rendered)
    requires ast.Valid() && node < |ast.trees|
    requires parts == StructParts(ast.trees[node], level)
    modifies out
    ensures Wrote(result, old(out.bytes), out.bytes, All(parts))
    decreases node, 2
  {
    ghost var start := out.bytes;
    var _, text := Look(ast, node);
    BeginningIsEmpty(start, parts);
    Say(out, text, start, parts, 0);
    Say(out, Ascii(" {\n"), start, parts, 1);
    ghost var before := out.bytes;
    result := RenderMembers(out, ast, node, level + 1);
    PartWritten(start, before, out.bytes, parts, 2, result);
    if result.Ok? {
      Say(out, Indentation(level), start, parts, 3);
      Say(out, Ascii("}"), start, parts, 4);
      AllWritten(start, out.bytes, parts);
    }
  }

  method RenderTry(out: Output, ast: Ast, node: NodeId, level: nat, ghost parts: seq<Print>)
    returns (result: Rendered)
    requires ast.Valid() && node < |ast.trees|
    requires parts == TryParts(ast.trees[node], level)
    modifies out
    ensures Wrote(result, old(out.bytes), out.bytes, All(parts))
    decreases node, 2
  {
    ghost var start := out.bytes;
    var _, text := Look(ast, node);
    BeginningIsEmpty(start, parts);
    Say(out, text, start, parts, 0);
    Say(out, Ascii("::try_from("), start, parts, 1);
    result := RenderOnly(out, ast, node, level, start, parts, 2);
    if result.Ok? {
      Say(out, Ascii(").unwrap()"), start, parts, 3);
      AllWritten(start, out.bytes, parts);
    }
  }

  method RenderUnary(out: Output, ast: Ast, node: NodeId, level: nat, ghost parts: seq<Print>)
    returns (result: Rendered)
    requires ast.Valid() && node < |ast.trees| && parts == UnaryParts(ast.trees[node], level)
    modifies out
    ensures Wrote(result, old(out.bytes), out.bytes, All(parts))
    decreases node, 2
  {
    ghost var start := out.bytes;
    var _, text := Look(ast, node);
    BeginningIsEmpty(start, parts);
    Say(out, text, start, parts, 0);
    result := RenderOnly(out, ast, node, level, start, parts, 1);
    if result.Ok? {
      AllWritten(start, out.bytes, parts);
    }
  }

  method RenderCaseOf(out: Output, ast: Ast, node: NodeId, level: nat, ghost parts: seq<Print>)
    returns (result: Rendered)
    requires ast.Valid() && node < |ast.trees| && parts == CaseOfParts(ast.trees[node], level)
    modifies out
    ensures Wrote(result, old(out.bytes), out.bytes, All(parts))
    decreases node, 2
  {
    ghost var start := out.bytes;
    var _, text := Look(ast, node);
    BeginningIsEmpty(start, parts);
    Say(out, text, start, parts, 0);
    Say(out, Ascii(" => "), start, parts, 1);
    result := RenderOnly(out, ast, node, level, start, parts, 2);
    if result.Ok? {
      AllWritten(start, out.bytes, parts);
    }
  }

  method RenderPlain(out: Output, ast: Ast, node: NodeId, level: nat, ghost parts: seq<Print>)
    returns (result: Rendered)
    requires ast.Valid() && node < |ast.trees|
    requires parts == PlainParts(ast.trees[node], level)
    modifies out
    ensures Wrote(result, old(out.bytes), out.bytes, All(parts))
    decreases node, 2
  {
    ghost var start := out.bytes;
    var kind, _ := Look(ast, node);
    BeginningIsEmpty(start, parts);
    match kind {
      case ExpressionGroup =>
        Say(out, Ascii("("), start, parts, 0);
        result := RenderOnly(out, ast, node, level, start, parts, 1);
        if result.Err? {
          return;
        }
        Say(out, Ascii(")"), start, parts, 2);
      case ExpressionQuestion =>
        result := RenderOnly(out, ast, node, level, start, parts, 0);
        if result.Err? {
          return;
        }
        Say(out, Ascii("?"), start, parts, 1);
      case _ =>
        OneFault(Unprintable(kind));
        return Err(WrongKind(node, kind));
    }
    AllWritten(start, out.bytes, parts);
    result := Ok(());
  }

  method RenderText(out: Output, ast: Ast, node: NodeId, ghost parts: seq<Print>) returns (result: Rendered)
    requires ast.Valid() && node < |ast.trees| && parts == [Ok(ast.trees[node].text)]
    modifies out
    ensures Wrote(result, old(out.bytes), out.bytes, All(parts))
  {
    ghost var start := out.bytes;
    BeginningIsEmpty(start, parts);
    var _, text := Look(ast, node);
    Say(out, text, start, parts, 0);
    AllWritten(start, out.bytes, parts);
    result := Ok(());
  }

  method RenderField(out: Output, ast: Ast, node: NodeId, level: nat, ghost parts: seq<Print>)
    returns (result: Rendered)
    requires ast.Valid() && node < |ast.trees|
    requires parts == FieldParts(ast.trees[node], level)
    modifies out
    ensures Wrote(result, old(out.bytes), out.bytes, All(parts))
    decreases node, 2
  {
    ghost var start := out.bytes;
    BeginningIsEmpty(start, parts);
    result := RenderOnly(out, ast, node, level, start, parts, 0);
    if result.Err? {
      return;
    }
    Say(out, Ascii("."), start, parts, 1);
    var _, text := Look(ast, node);
    Say(out, text, start, parts, 2);
    AllWritten(start, out.bytes, parts);
  }

  method RenderShort(out: Output, ast: Ast, node: NodeId, level: nat, ghost parts: seq<Print>)
    returns (result: Rendered)
    requires ast.Valid() && node < |ast.trees|
    requires parts == ShortParts(ast.trees[node], level)
    modifies out
    ensures Wrote(result, old(out.bytes), out.bytes, All(parts))
    decreases node, 3
  {
    var kind, _ := Look(ast, node);
    match kind {
      case ExpressionTry => result := RenderTry(out, ast, node, level, parts);
      case ExpressionArm => result := RenderCaseOf(out, ast, node, level, parts);
      case ExpressionUnary => result := RenderUnary(out, ast, node, level, parts);
      case ExpressionField => result := RenderField(out, ast, node, level, parts);
      case ExpressionLiteral | ExpressionPath => result := RenderText(out, ast, node, parts);
      case _ => result := RenderPlain(out, ast, node, level, parts);
    }
  }

  method RenderLong(out: Output, ast: Ast, node: NodeId, level: nat, ghost parts: seq<Print>)
    returns (result: Rendered)
    requires ast.Valid() && node < |ast.trees|
    requires parts == LongParts(ast.trees[node], level)
    modifies out
    ensures Wrote(result, old(out.bytes), out.bytes, All(parts))
    decreases node, 4
  {
    var kind, _ := Look(ast, node);
    match kind {
      case ExpressionStruct => result := RenderStruct(out, ast, node, level, parts);
      case ExpressionLet => result := RenderLet(out, ast, node, level, parts);
      case ExpressionBranch => result := RenderBranch(out, ast, node, level, parts);
      case ExpressionMatch => result := RenderMatch(out, ast, node, level, parts);
      case ExpressionBlock => result := RenderBlock(out, ast, node, level, parts);
      case _ => result := RenderShort(out, ast, node, level, parts);
    }
  }

  method RenderCallOrLong(out: Output, ast: Ast, node: NodeId, level: nat, ghost parts: seq<Print>)
    returns (result: Rendered)
    requires ast.Valid() && node < |ast.trees|
    requires parts == CallOrLongParts(ast.trees[node], level)
    modifies out
    ensures Wrote(result, old(out.bytes), out.bytes, All(parts))
    decreases node, 5
  {
    var kind, _ := Look(ast, node);
    match kind {
      case ExpressionCall => result := RenderCall(out, ast, node, level, parts);
      case ExpressionMethod => result := RenderMethod(out, ast, node, level, parts);
      case ExpressionAs => result := RenderAs(out, ast, node, level, parts);
      case ExpressionReturn => result := RenderReturn(out, ast, node, level, parts);
      case _ => result := RenderLong(out, ast, node, level, parts);
    }
  }

  /** Writes any node that stands for an expression. */
  method RenderExpression(out: Output, ast: Ast, node: NodeId, level: nat) returns (result: Rendered)
    requires ast.Valid() && node < |ast.trees|
    modifies out
    ensures Wrote(result, old(out.bytes), out.bytes, ExpressionPrint(ast.trees[node], level))
    decreases node, 6
  {
    var kind, text := Look(ast, node);
    ghost var parts := Parts(ast.trees[node], level);
    match kind {
      case ExpressionBinary => result := RenderOperator(out, ast, node, text, level, parts);
      case ExpressionAssign =>
        result := RenderOperator(out, ast, node, if text == [] then Ascii("=") else text, level, parts);
      case ExpressionIndex => result := RenderIndex(out, ast, node, level, parts);
      case ExpressionWhile => result := RenderWhile(out, ast, node, level, parts);
      case ExpressionFor => result := RenderFor(out, ast, node, level, parts);
      case _ => result := RenderCallOrLong(out, ast, node, level, parts);
    }
  }

  /** Writes the statements of a body. */
  method RenderStatements(out: Output, ast: Ast, nodes: seq<NodeId>, level: nat) returns (result: Rendered)
    requires ast.Valid() && forall i :: 0 <= i < |nodes| ==> nodes[i] < |ast.trees|
    modifies out
    ensures Wrote(result, old(out.bytes), out.bytes, All(StatementParts(Gather(ast.trees, nodes), level)))
  {
    ghost var start, lines := out.bytes, StatementParts(Gather(ast.trees, nodes), level);
    BeginningIsEmpty(start, lines);
    for i := 0 to |nodes|
      invariant Begun(start, out.bytes, lines, i)
    {
      ghost var before := out.bytes;
      result := RenderStatement(out, ast, nodes[i], level);
      PartWritten(start, before, out.bytes, lines, i, result);
      if result.Err? {
        return;
      }
    }
    AllWritten(start, out.bytes, lines);
    result := Ok(());
  }
}
