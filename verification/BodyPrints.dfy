/** A lowered body prints as the text written straight from its rows. */
module BodyPrints {
  import opened Basics
  import opened Facts
  import opened Arena
  import opened Render
  import opened Printing
  import opened Expressions
  import opened Lower
  import opened Body
  import opened BodyText
  import Ownership

  // ---- One shape at a time ------------------------------------------------------------------------

  /** The trees print, at any level of indentation, as what is written for the rows. */
  ghost predicate Mirrors(inner: Writer, rows: seq<ExpressionId>, trees: seq<Tree>) {
    |rows| == |trees| && forall i, at: nat :: 0 <= i < |rows| ==> IsMirrored(inner, rows[i], trees[i], at)
  }

  ghost predicate IsMirrored(inner: Writer, row: ExpressionId, tree: Tree, level: nat) {
    AsText(ExpressionPrint(tree, level)) == inner(row, level)
  }

  lemma OnlyMirrors(inner: Writer, rows: seq<ExpressionId>, tree: Tree, level: nat)
    requires Mirrors(inner, rows, tree.children)
    ensures AsText(Only(tree, level)) == if |rows| == 1 then inner(rows[0], level) else None
  {
    assert |rows| == 1 ==> IsMirrored(inner, rows[0], tree.children[0], level);
  }

  lemma ChildMirrors(inner: Writer, rows: seq<ExpressionId>, tree: Tree, i: nat, level: nat)
    requires Mirrors(inner, rows, tree.children) && i < |rows|
    ensures AsText(Child(tree, i, level)) == inner(rows[i], level)
  {
    assert IsMirrored(inner, rows[i], tree.children[i], level);
  }

  lemma FaultIsNoText(fault: Fault)
    ensures AsText(All([Err(fault)])) == None
  {
    OneFault(fault);
  }

  lemma NothingWithout(parts: seq<Text>, i: nat)
    requires i < |parts| && parts[i] == None
    ensures Glue(parts) == None
    decreases |parts|
  {
    if i > 0 {
      NothingWithout(parts[1..], i - 1);
    }
  }

  lemma ListMirrors(inner: Writer, rows: seq<ExpressionId>, tree: Tree, from: nat, level: nat)
    requires Mirrors(inner, rows, tree.children) && from <= |rows|
    ensures AsText(All(ItemParts(tree, from, level))) == ListText(inner, rows[from..], level)
  {
    var items, listed := ItemParts(tree, from, level), rows[from..];
    var line: ExpressionId -> Text := (row: ExpressionId) => Glue([Lit(", "), inner(row, level)]);
    var texts := seq(|items|, i requires 0 <= i < |items| =>
      if i == 0 then inner(listed[i], level) else line(listed[i]));
    forall i | 0 <= i < |items|
      ensures AsText(items[i]) == texts[i]
    {
      ItemMirrors(inner, rows, tree, from, from + i, level);
    }
    AllIsGlue(items, texts);
    if listed != [] {
      var more := texts[1..];
      assert forall i :: 0 <= i < |more| ==> more[i] == texts[i + 1] && listed[1..][i] == listed[i + 1];
      EachIsGlue(line, listed[1..], more);
      GlueTwo(texts[0], Glue(more));
    }
  }

  lemma ItemMirrors(inner: Writer, rows: seq<ExpressionId>, tree: Tree, from: nat, i: nat, level: nat)
    requires Mirrors(inner, rows, tree.children) && i < |rows|
    ensures AsText(ItemPrint(tree, from, i, level))
         == if i == from then inner(rows[i], level) else Glue([Lit(", "), inner(rows[i], level)])
  {
    ChildMirrors(inner, rows, tree, i, level);
    if i == from {
      AllIsGlue([Ok([]), Child(tree, i, level)], [Some([]), inner(rows[i], level)]);
      GlueTwo(Some([]), inner(rows[i], level));
      assert inner(rows[i], level).Some? ==> [] + inner(rows[i], level).value == inner(rows[i], level).value;
    } else {
      AllIsGlue([Said(", "), Child(tree, i, level)], [Lit(", "), inner(rows[i], level)]);
    }
  }

  lemma BracketsMirror(inner: Writer, rows: seq<ExpressionId>, tree: Tree, from: nat, level: nat)
    requires Mirrors(inner, rows, tree.children) && from <= |rows|
    ensures AsText(BracketsPrint(tree, from, level)) == BracketsText(inner, rows[from..], level)
  {
    ListMirrors(inner, rows, tree, from, level);
    AllIsGlue([Said("("), All(ItemParts(tree, from, level)), Said(")")],
              [Lit("("), ListText(inner, rows[from..], level), Lit(")")]);
  }

  lemma CallMirrors(inner: Writer, rows: seq<ExpressionId>, tree: Tree, level: nat)
    requires Mirrors(inner, rows, tree.children)
    ensures AsText(All(CallParts(tree, level))) == Glue([Some(tree.text), BracketsText(inner, rows, level)])
  {
    BracketsMirror(inner, rows, tree, 0, level);
    assert rows[0..] == rows;
    AllIsGlue(CallParts(tree, level), [Some(tree.text), BracketsText(inner, rows, level)]);
  }

  lemma MethodMirrors(inner: Writer, rows: seq<ExpressionId>, tree: Tree, level: nat)
    requires Mirrors(inner, rows, tree.children)
    ensures AsText(All(MethodParts(tree, level)))
         == if rows == [] then None
            else Glue([inner(rows[0], level), Lit("."), Some(tree.text), BracketsText(inner, rows[1..], level)])
  {
    if rows == [] {
      FaultIsNoText(WrongChildren);
    } else {
      ChildMirrors(inner, rows, tree, 0, level);
      BracketsMirror(inner, rows, tree, 1, level);
      AllIsGlue(MethodParts(tree, level),
                [inner(rows[0], level), Lit("."), Some(tree.text), BracketsText(inner, rows[1..], level)]);
    }
  }

  lemma ReturnMirrors(inner: Writer, rows: seq<ExpressionId>, tree: Tree, level: nat)
    requires Mirrors(inner, rows, tree.children)
    ensures AsText(All(ReturnParts(tree, level)))
         == if rows == [] then Lit("return") else Glue([Lit("return"), Lit(" "), inner(rows[0], level)])
  {
    if rows == [] {
      AllIsGlue([Said("return")], [Lit("return")]);
      assert [Lit("return")][1..] == [] && Ascii("return") + [] == Ascii("return");
      assert Glue([]) == Some([]);
    } else {
      ChildMirrors(inner, rows, tree, 0, level);
      AllIsGlue(ReturnParts(tree, level), [Lit("return"), Lit(" "), inner(rows[0], level)]);
    }
  }

  /** The trees of an operand that is an operator itself are the binary and unary ones. */
  ghost predicate IsOperator(kind: Option<ExpressionKind>, tree: Tree) {
    kind == Some(Binary) || kind == Some(Unary) <==> tree.kind == ExpressionBinary || tree.kind == ExpressionUnary
  }

  lemma CastMirrors(inner: Writer, kind: Option<ExpressionKind>, rows: seq<ExpressionId>, tree: Tree, level: nat)
    requires Mirrors(inner, rows, tree.children) && (|rows| == 1 ==> IsOperator(kind, tree.children[0]))
    ensures AsText(All(AsParts(tree, level)))
         == if |rows| != 1 then None else CastText(inner, kind, rows[0], tree.text, level)
  {
    OnlyMirrors(inner, rows, tree, level);
    if |rows| != 1 {
      FaultIsNoText(WrongChildren);
    } else if kind == Some(Binary) || kind == Some(Unary) {
      AllIsGlue(AsParts(tree, level), [Lit("("), inner(rows[0], level), Lit(")"), Lit(" as "), Some(tree.text)]);
    } else {
      AllIsGlue(AsParts(tree, level), [inner(rows[0], level), Lit(" as "), Some(tree.text)]);
    }
  }

  lemma OperatorMirrors(
    kind: ExpressionKind, inner: Writer, rows: seq<ExpressionId>, tree: Tree, operator: seq<u8>, level: nat)
    requires Mirrors(inner, rows, tree.children) && (kind == Binary || kind == Assign)
    requires operator == if kind == Assign && tree.text == [] then Ascii("=") else tree.text
    ensures AsText(All(OperatorParts(tree, operator, level))) == TwoText(kind, inner, rows, tree.text, level)
  {
    if |rows| != 2 {
      FaultIsNoText(WrongChildren);
    } else {
      ChildMirrors(inner, rows, tree, 0, level);
      ChildMirrors(inner, rows, tree, 1, level);
      AllIsGlue(OperatorParts(tree, operator, level),
                [inner(rows[0], level), Lit(" "), Some(operator), Lit(" "), inner(rows[1], level)]);
    }
  }

  lemma WhileMirrors(inner: Writer, rows: seq<ExpressionId>, tree: Tree, level: nat)
    requires Mirrors(inner, rows, tree.children)
    ensures AsText(All(WhileParts(tree, level))) == TwoText(While, inner, rows, tree.text, level)
  {
    if |rows| != 2 {
      FaultIsNoText(WrongChildren);
    } else {
      ChildMirrors(inner, rows, tree, 0, level);
      ChildMirrors(inner, rows, tree, 1, level);
      AllIsGlue(WhileParts(tree, level), [Lit("while "), inner(rows[0], level), Lit(" "), inner(rows[1], level)]);
    }
  }

  lemma ForMirrors(inner: Writer, rows: seq<ExpressionId>, tree: Tree, level: nat)
    requires Mirrors(inner, rows, tree.children)
    ensures AsText(All(ForParts(tree, level))) == TwoText(For, inner, rows, tree.text, level)
  {
    if |rows| != 2 {
      FaultIsNoText(WrongChildren);
    } else {
      ChildMirrors(inner, rows, tree, 0, level);
      ChildMirrors(inner, rows, tree, 1, level);
      AllIsGlue(
        ForParts(tree, level),
        [Lit("for "), Some(tree.text), Lit(" in "), inner(rows[0], level), Lit(" "), inner(rows[1], level)]);
    }
  }

  lemma UnaryMirrors(inner: Writer, rows: seq<ExpressionId>, tree: Tree, level: nat)
    requires Mirrors(inner, rows, tree.children)
    ensures AsText(All(UnaryParts(tree, level))) == OneText(Unary, inner, rows, tree.text, level)
  {
    OnlyMirrors(inner, rows, tree, level);
    var texts := [Some(tree.text), if |rows| == 1 then inner(rows[0], level) else None];
    AllIsGlue(UnaryParts(tree, level), texts);
    if |rows| != 1 {
      NothingWithout(texts, 1);
    }
  }

  lemma FieldMirrors(inner: Writer, rows: seq<ExpressionId>, tree: Tree, level: nat)
    requires Mirrors(inner, rows, tree.children)
    ensures AsText(All(FieldParts(tree, level))) == OneText(ExpressionKind.Field, inner, rows, tree.text, level)
  {
    OnlyMirrors(inner, rows, tree, level);
    var texts := [if |rows| == 1 then inner(rows[0], level) else None, Lit("."), Some(tree.text)];
    AllIsGlue(FieldParts(tree, level), texts);
    if |rows| != 1 {
      NothingWithout(texts, 0);
    }
  }

  lemma CaseOfMirrors(inner: Writer, rows: seq<ExpressionId>, tree: Tree, level: nat)
    requires Mirrors(inner, rows, tree.children)
    ensures AsText(All(CaseOfParts(tree, level))) == OneText(Arm, inner, rows, tree.text, level)
  {
    OnlyMirrors(inner, rows, tree, level);
    var texts := [Some(tree.text), Lit(" => "), if |rows| == 1 then inner(rows[0], level) else None];
    AllIsGlue(CaseOfParts(tree, level), texts);
    if |rows| != 1 {
      NothingWithout(texts, 2);
    }
  }

  lemma GroupMirrors(inner: Writer, rows: seq<ExpressionId>, tree: Tree, level: nat)
    requires Mirrors(inner, rows, tree.children) && tree.kind == ExpressionGroup
    ensures AsText(All(PlainParts(tree, level))) == OneText(Group, inner, rows, tree.text, level)
  {
    OnlyMirrors(inner, rows, tree, level);
    var texts := [Lit("("), if |rows| == 1 then inner(rows[0], level) else None, Lit(")")];
    AllIsGlue(PlainParts(tree, level), texts);
    if |rows| != 1 {
      NothingWithout(texts, 1);
    }
  }

  lemma QuestionMirrors(inner: Writer, rows: seq<ExpressionId>, tree: Tree, level: nat)
    requires Mirrors(inner, rows, tree.children) && tree.kind == ExpressionQuestion
    ensures AsText(All(PlainParts(tree, level))) == OneText(Question, inner, rows, tree.text, level)
  {
    OnlyMirrors(inner, rows, tree, level);
    var texts := [if |rows| == 1 then inner(rows[0], level) else None, Lit("?")];
    AllIsGlue(PlainParts(tree, level), texts);
    if |rows| != 1 {
      NothingWithout(texts, 0);
    }
  }

  ghost predicate IsBlock(kind: Option<ExpressionKind>, tree: Tree) {
    kind == Some(Block) <==> tree.kind == ExpressionBlock
  }

  lemma ArmMirrors(inner: Writer, kind: Option<ExpressionKind>, row: ExpressionId, tree: Tree, level: nat)
    requires forall at: nat :: IsMirrored(inner, row, tree, at)
    requires IsBlock(kind, tree)
    ensures AsText(ArmPrint(tree, level)) == ArmText(inner, kind, row, level)
  {
    assert IsMirrored(inner, row, tree, level) && IsMirrored(inner, row, tree, level + 1);
    if kind != Some(Block) {
      AllIsGlue([Said("{\n"), Ok(Indentation(level + 1)), ExpressionPrint(tree, level + 1), Said("\n"),
                 Ok(Indentation(level)), Said("}")],
                [Lit("{\n"), Some(Indentation(level + 1)), inner(row, level + 1), Lit("\n"),
                 Some(Indentation(level)), Lit("}")]);
    }
  }

  lemma ElseMirrors(tables: Tables, inner: Writer, rows: seq<ExpressionId>, tree: Tree, level: nat)
    requires Mirrors(inner, rows, tree.children) && |rows| >= 2
    requires |rows| > 2 ==> IsBlock(KindAt(tables, rows[2]), tree.children[2])
    ensures AsText(ElsePrint(tree, level))
         == if |rows| == 2 then Some([])
            else Glue([Lit(" else "), ArmText(inner, KindAt(tables, rows[2]), rows[2], level)])
  {
    if |rows| > 2 {
      ArmMirrors(inner, KindAt(tables, rows[2]), rows[2], tree.children[2], level);
      AllIsGlue([Said(" else "), ArmPrint(tree.children[2], level)],
                [Lit(" else "), ArmText(inner, KindAt(tables, rows[2]), rows[2], level)]);
    }
  }

  lemma BranchMirrors(tables: Tables, inner: Writer, rows: seq<ExpressionId>, tree: Tree, level: nat)
    requires Mirrors(inner, rows, tree.children)
    requires forall i :: 0 <= i < |rows| ==> IsBlock(KindAt(tables, rows[i]), tree.children[i])
    ensures AsText(All(BranchParts(tree, level))) == BranchText(tables, inner, rows, level)
  {
    if |rows| < 2 {
      FaultIsNoText(WrongChildren);
    } else {
      ChildMirrors(inner, rows, tree, 0, level);
      ArmMirrors(inner, KindAt(tables, rows[1]), rows[1], tree.children[1], level);
      ElseMirrors(tables, inner, rows, tree, level);
      AllIsGlue(BranchParts(tree, level),
                [Lit("if "), inner(rows[0], level), Lit(" "), ArmText(inner, KindAt(tables, rows[1]), rows[1], level),
                 AsText(ElsePrint(tree, level))]);
    }
  }

  lemma MatchMirrors(inner: Writer, rows: seq<ExpressionId>, tree: Tree, level: nat)
    requires Mirrors(inner, rows, tree.children)
    ensures AsText(All(MatchParts(tree, level))) == MatchText(inner, rows, level)
  {
    if rows == [] {
      FaultIsNoText(WrongChildren);
    } else {
      var line: ExpressionId -> Text :=
        (row: ExpressionId) => Glue([Some(Indentation(level + 1)), inner(row, level + 1), Lit(",\n")]);
      ChildMirrors(inner, rows, tree, 0, level);
      CasesMirror(inner, rows, tree, level + 1, line);
      AllIsGlue(MatchParts(tree, level),
                [Lit("match "), inner(rows[0], level), Lit(" {\n"), EachText(line, rows[1..]),
                 Some(Indentation(level)), Lit("}")]);
    }
  }

  lemma CaseMirrors(inner: Writer, row: ExpressionId, tree: Tree, level: nat)
    requires IsMirrored(inner, row, tree, level)
    ensures AsText(CasePrint(tree, level)) == Glue([Some(Indentation(level)), inner(row, level), Lit(",\n")])
  {
    AllIsGlue([Ok(Indentation(level)), ExpressionPrint(tree, level), Said(",\n")],
              [Some(Indentation(level)), inner(row, level), Lit(",\n")]);
  }

  lemma CasesMirror(
    inner: Writer, rows: seq<ExpressionId>, tree: Tree, level: nat, line: ExpressionId -> Text)
    requires Mirrors(inner, rows, tree.children) && rows != []
    requires forall row :: line(row) == Glue([Some(Indentation(level)), inner(row, level), Lit(",\n")])
    ensures AsText(All(CaseParts(tree, level))) == EachText(line, rows[1..])
  {
    var cases := CaseParts(tree, level);
    var texts := seq(|cases|, i requires 0 <= i < |cases| => line(rows[i + 1]));
    forall i | 0 <= i < |cases|
      ensures AsText(cases[i]) == texts[i]
    {
      assert IsMirrored(inner, rows[i + 1], tree.children[i + 1], level);
      CaseMirrors(inner, rows[i + 1], tree.children[i + 1], level);
    }
    AllIsGlue(cases, texts);
    EachIsGlue(line, rows[1..], texts);
  }

  // ---- Statements ---------------------------------------------------------------------------------

  lemma WrappedPrints(tree: Tree, level: nat)
    ensures Only(Parent(Statement, 0, 0, tree), level) == ExpressionPrint(tree, level)
  {
    assert Parent(Statement, 0, 0, tree).children == [tree];
  }

  lemma StatementMirrors(inner: Writer, kind: Option<ExpressionKind>, row: ExpressionId, tree: Tree, level: nat)
    requires IsMirrored(inner, row, tree, level) && tree.kind != Statement
    ensures AsText(StatementPrint(StatementTree(kind, tree, false), level)) == StatementText(inner, kind, row, level)
  {
    var printed := ExpressionPrint(tree, level);
    if Braces(kind) {
      AllIsGlue([Ok(Indentation(level)), printed, Said("\n")], [Some(Indentation(level)), AsText(printed), Lit("\n")]);
    } else {
      WrappedPrints(tree, level);
      AllIsGlue([Ok(Indentation(level)), printed, Said(";\n")],
                [Some(Indentation(level)), AsText(printed), Lit(";\n")]);
    }
  }

  lemma EmptyBlockPrints(tree: Tree, level: nat)
    requires tree.children == []
    ensures AsText(All(BlockParts(tree, level))) == Lit("{}")
  {
    AllIsGlue(BlockParts(tree, level), [Lit("{}")]);
    assert [Lit("{}")][1..] == [] && Ascii("{}") + [] == Ascii("{}") && Glue([]) == Some([]);
  }

  lemma FullBlockPrints(tree: Tree, level: nat)
    requires tree.children != []
    ensures AsText(All(BlockParts(tree, level)))
         == Glue([Lit("{\n"), AsText(All(LineParts(tree, level + 1))), Some(Indentation(level)), Lit("}")])
  {
    AllIsGlue(BlockParts(tree, level),
              [Lit("{\n"), AsText(All(LineParts(tree, level + 1))), Some(Indentation(level)), Lit("}")]);
  }

  lemma BlockMirrors(
    tables: Tables, inner: Writer, rows: seq<ExpressionId>, trees: seq<Tree>, tree: Tree, level: nat)
    requires Mirrors(inner, rows, trees) && tree.children == StatementTrees(tables, rows, trees, false)
    requires forall i :: 0 <= i < |trees| ==> trees[i].kind != Statement
    ensures AsText(All(BlockParts(tree, level))) == BlockText(tables, inner, rows, level)
  {
    if rows == [] {
      EmptyBlockPrints(tree, level);
    } else {
      FullBlockPrints(tree, level);
      LinesMirror(tables, inner, rows, trees, tree, level + 1,
                  (row: ExpressionId) => StatementText(inner, KindAt(tables, row), row, level + 1));
    }
  }

  lemma LinesMirror(
    tables: Tables, inner: Writer, rows: seq<ExpressionId>, trees: seq<Tree>, tree: Tree, level: nat,
    line: ExpressionId -> Text)
    requires Mirrors(inner, rows, trees) && tree.children == StatementTrees(tables, rows, trees, false)
    requires forall i :: 0 <= i < |trees| ==> trees[i].kind != Statement
    requires forall row :: line(row) == StatementText(inner, KindAt(tables, row), row, level)
    ensures AsText(All(LineParts(tree, level))) == EachText(line, rows)
  {
    var lines := LineParts(tree, level);
    var texts := seq(|lines|, i requires 0 <= i < |lines| => line(rows[i]));
    forall i | 0 <= i < |lines|
      ensures AsText(lines[i]) == texts[i]
    {
      assert IsMirrored(inner, rows[i], trees[i], level);
      StatementMirrors(inner, KindAt(tables, rows[i]), rows[i], trees[i], level);
    }
    AllIsGlue(lines, texts);
    EachIsGlue(line, rows, texts);
  }

  /** A binding, given what is written for its type and its value. */
  function BindingText(mutable: bool, name: seq<u8>, annotation: Text, value: Text): Text {
    Glue([Lit("let "), if mutable then Lit("mut ") else Some([]), Some(name), annotation, Lit(" = "), value])
  }

  lemma BindingNeedsBoth(mutable: bool, name: seq<u8>, annotation: Text, value: Text)
    requires annotation == None || value == None
    ensures BindingText(mutable, name, annotation, value) == None
  {
    NothingWithout(
      [Lit("let "), if mutable then Lit("mut ") else Some([]), Some(name), annotation, Lit(" = "), value],
      if value == None then 5 else 3);
  }

  lemma LetPartsPrint(tree: Tree, level: nat)
    requires tree.children != []
    ensures AsText(All(LetParts(tree, level)))
         == BindingText(tree.flags != 0, tree.text, AsText(AnnotationPrint(tree)), AsText(Child(tree, 0, level)))
  {
    AllIsGlue(LetParts(tree, level),
              [Lit("let "), if tree.flags != 0 then Lit("mut ") else Some([]), Some(tree.text),
               AsText(AnnotationPrint(tree)), Lit(" = "), AsText(Child(tree, 0, level))]);
  }

  lemma LetTextIsBinding(tables: Tables, lowering: Lowering, inner: Writer, row: ExpressionId, level: nat)
    requires KindAt(tables, row) == Some(Let)
    ensures var rows, declared := ChildrenOf(tables, row), ResultAt(tables, row);
            LetText(tables, lowering, inner, row, level)
            == if |rows| != 1 then None
               else BindingText(
                      Get(tables.expressions.parameter, row) == Some(1), TextAt(tables, row),
                      if declared == NO_INDEX then Some([])
                      else Glue([Lit(": "), Some(TypeText(tables, lowering, declared, 0))]), inner(rows[0], level))
  {
  }

  lemma LetMirrors(tables: Tables, lowering: Lowering, inner: Writer, row: ExpressionId, trees: seq<Tree>, level: nat)
    requires Mirrors(inner, ChildrenOf(tables, row), trees) && KindAt(tables, row) == Some(Let)
    requires forall i :: 0 <= i < |trees| ==> TypePrint(trees[i]).Err?
    ensures AsText(All(LetParts(LetTree(tables, lowering, row, trees), level)))
         == LetText(tables, lowering, inner, row, level)
  {
    var tree := LetTree(tables, lowering, row, trees);
    LetTextIsBinding(tables, lowering, inner, row, level);
    if tree.children == [] {
      FaultIsNoText(WrongChildren);
    } else {
      LetPartsPrint(tree, level);
      AnnotationMirrors(tables, lowering, row, trees);
      FirstOfLet(tables, lowering, inner, row, trees, level);
      var annotation, value := AsText(AnnotationPrint(tree)), AsText(Child(tree, 0, level));
      if |trees| != 1 {
        BindingNeedsBoth(tree.flags != 0, tree.text, annotation, value);
      }
    }
  }

  /** A binding prints its type where it has one; with more than one row below it there is no type to print. */
  lemma AnnotationMirrors(tables: Tables, lowering: Lowering, row: ExpressionId, trees: seq<Tree>)
    requires forall i :: 0 <= i < |trees| ==> TypePrint(trees[i]).Err?
    ensures var declared := ResultAt(tables, row);
            && (|trees| > 1 ==> AsText(AnnotationPrint(LetTree(tables, lowering, row, trees))) == None)
            && (|trees| == 1 ==>
                  AsText(AnnotationPrint(LetTree(tables, lowering, row, trees)))
                  == if declared == NO_INDEX then Some([])
                     else Glue([Lit(": "), Some(TypeText(tables, lowering, declared, 0))]))
  {
    var tree, declared := LetTree(tables, lowering, row, trees), ResultAt(tables, row);
    if |trees| > 1 {
      var texts := [Lit(": "), None];
      AllIsGlue([Said(": "), TypePrint(tree.children[1])], texts);
      NothingWithout(texts, 1);
    } else if |trees| == 1 && declared != NO_INDEX {
      LoweredTypePrints(tables, lowering, declared, 0);
      AllIsGlue([Said(": "), TypePrint(tree.children[1])], [Lit(": "), Some(TypeText(tables, lowering, declared, 0))]);
    }
  }

  predicate IsTypeKind(kind: NodeKind) {
    kind == TypePath || kind == TypeSliceBody || kind == TypeOption || kind == TypeArray
  }

  lemma TypeTreesAreTypes(tables: Tables, lowering: Lowering, kind: TypeId, depth: nat)
    ensures IsTypeKind(TypeTree(tables, lowering, kind, depth).kind)
    decreases MAXIMUM_TYPE_DEPTH - depth
  {
    if kind < |tables.types.kind| && depth < MAXIMUM_TYPE_DEPTH && tables.types.kind[kind] == Pointer {
      TypeTreesAreTypes(tables, lowering, ElementOf(tables.types, kind), depth + 1);
    }
  }

  /** A type does not print as an expression. */
  lemma TypesAreNoExpressions(tree: Tree, level: nat)
    requires IsTypeKind(tree.kind)
    ensures ExpressionPrint(tree, level).Err?
  {
    assert ShortParts(tree, level) == PlainParts(tree, level);
    assert CallOrLongParts(tree, level) == LongParts(tree, level) == ShortParts(tree, level);
    assert Parts(tree, level) == CallOrLongParts(tree, level);
    OneFault(Unprintable(tree.kind));
  }

  lemma FirstOfLet(
    tables: Tables, lowering: Lowering, inner: Writer, row: ExpressionId, trees: seq<Tree>, level: nat)
    requires Mirrors(inner, ChildrenOf(tables, row), trees)
    requires LetTree(tables, lowering, row, trees).children != []
    ensures AsText(Child(LetTree(tables, lowering, row, trees), 0, level))
         == if trees == [] then None else inner(ChildrenOf(tables, row)[0], level)
  {
    if trees == [] {
      TypeTreesAreTypes(tables, lowering, ResultAt(tables, row), 0);
      TypesAreNoExpressions(TypeTree(tables, lowering, ResultAt(tables, row), 0), level);
    } else {
      assert IsMirrored(inner, ChildrenOf(tables, row)[0], trees[0], level);
    }
  }

  // ---- Which node stands for a row ----------------------------------------------------------------

  function NodeFor(tables: Tables, row: ExpressionId): Option<NodeKind> {
    match KindAt(tables, row)
    case Some(Identifier) => Some(ExpressionPath)
    case Some(Literal) => Some(ExpressionLiteral)
    case Some(StructLiteral) => Some(if FieldAt(tables, row) != NO_INDEX then FieldValue else ExpressionStruct)
    case Some(Cast) => Some(ExpressionAs)
    case Some(Wrap) => Some(ExpressionCall)
    case Some(Call) => Some(ExpressionCall)
    case Some(Field) => Some(ExpressionField)
    case Some(Binary) => Some(ExpressionBinary)
    case Some(Unary) => Some(ExpressionUnary)
    case Some(Index) => Some(ExpressionIndex)
    case Some(Group) => Some(ExpressionGroup)
    case Some(Question) => Some(ExpressionQuestion)
    case Some(Return) => Some(ExpressionReturn)
    case Some(Let) => Some(ExpressionLet)
    case Some(Assign) => Some(ExpressionAssign)
    case Some(Branch) => Some(ExpressionBranch)
    case Some(Block) => Some(ExpressionBlock)
    case Some(Method) => Some(ExpressionMethod)
    case Some(While) => Some(ExpressionWhile)
    case Some(For) => Some(ExpressionFor)
    case Some(Match) => Some(ExpressionMatch)
    case Some(Arm) => Some(ExpressionArm)
    case _ => None
  }

  ghost predicate StandsFor(tables: Tables, lowering: Lowering, row: ExpressionId, tree: Tree) {
    NodeFor(tables, row) == Some(tree.kind) && tree.text == Word(tables, lowering, row)
  }

  ghost predicate AllStandFor(tables: Tables, lowering: Lowering, rows: seq<ExpressionId>, trees: seq<Tree>) {
    |rows| == |trees| && forall i :: 0 <= i < |rows| ==> StandsFor(tables, lowering, rows[i], trees[i])
  }

  lemma KindsOfNodes(tables: Tables, lowering: Lowering, row: ExpressionId, tree: Tree)
    requires StandsFor(tables, lowering, row, tree)
    ensures IsOperator(KindAt(tables, row), tree) && IsBlock(KindAt(tables, row), tree)
    ensures tree.kind == ExpressionPath <==> KindAt(tables, row) == Some(Identifier)
  {
  }

  predicate IsTypeNode(kind: NodeKind) {
    || kind == TypePath || kind == TypeVec || kind == TypeResult || kind == TypeSliceBody || kind == TypeBoxed
    || kind == TypeReferenceMut || kind == TypeReference || kind == TypeOption || kind == TypeArray
    || kind == TypeOptionNonNull
  }

  lemma OnlyTypesPrintAsTypes(tree: Tree)
    requires !IsTypeNode(tree.kind)
    ensures TypePrint(tree).Err?
  {
    assert Brackets(tree.kind, tree.number, tree.flags) == None;
    assert TypePrint(tree) == BracketedPrint(tree);
  }

  lemma NodesForRows(tables: Tables, row: ExpressionId)
    requires NodeFor(tables, row).Some?
    ensures NodeFor(tables, row).value != Statement && !IsTypeNode(NodeFor(tables, row).value)
  {
  }

  /** Rows come across as neither types nor statements. */
  lemma NodesAreExpressions(tables: Tables, lowering: Lowering, row: ExpressionId, tree: Tree)
    requires StandsFor(tables, lowering, row, tree)
    ensures tree.kind != Statement && TypePrint(tree).Err?
  {
    NodesForRows(tables, row);
    OnlyTypesPrintAsTypes(tree);
  }

  lemma CallIsSpelled(tables: Tables, lowering: Lowering, callee: FunctionId)
    requires CallPath(tables, lowering, callee).Some?
    ensures CallPath(tables, lowering, callee).value == CalleeText(tables, lowering, callee)
  {
    assert forall name: seq<u8> :: [] + name == name;
  }

  /** The row is one whose node has just the trees of the rows below it under it. */
  predicate IsDirect(tables: Tables, row: ExpressionId) {
    var kind := KindAt(tables, row);
    && kind.Some? && kind != Some(Identifier) && kind != Some(Literal) && kind != Some(Index) && kind != Some(Let)
    && kind != Some(Block)
  }

  lemma DirectStands(tables: Tables, lowering: Lowering, row: ExpressionId, trees: seq<Tree>, tree: Tree)
    requires IsDirect(tables, row) && |trees| == |ChildrenOf(tables, row)|
    requires DirectTree(tables, row, KindAt(tables, row).value, trees) == Some(tree)
    requires KindAt(tables, row) != Some(StructLiteral) && KindAt(tables, row) != Some(Call)
    requires KindAt(tables, row) != Some(Method)
    ensures StandsFor(tables, lowering, row, tree) && tree.children == trees
  {
  }

  /** What a row's tree has under it, of the trees of the rows below. */
  ghost predicate Holds(tables: Tables, lowering: Lowering, row: ExpressionId, trees: seq<Tree>, tree: Tree)
    requires |trees| == |ChildrenOf(tables, row)|
  {
    && (IsDirect(tables, row) ==> tree.children == trees)
    && (KindAt(tables, row) == Some(Index) ==> tree.children == Subscripted(trees))
    && (KindAt(tables, row) == Some(Let) ==> tree == LetTree(tables, lowering, row, trees))
    && (KindAt(tables, row) == Some(Block) ==>
          tree.children == StatementTrees(tables, ChildrenOf(tables, row), trees, false))
    && (KindAt(tables, row) == Some(Identifier) || KindAt(tables, row) == Some(Literal) ==> tree.children == [])
  }

  lemma ShapeStands(tables: Tables, lowering: Lowering, row: ExpressionId, trees: seq<Tree>, tree: Tree)
    requires KindAt(tables, row).Some? && |trees| == |ChildrenOf(tables, row)|
    requires ShapeTree(tables, lowering, row, KindAt(tables, row).value, trees) == Some(tree)
    ensures StandsFor(tables, lowering, row, tree) && Holds(tables, lowering, row, trees, tree)
  {
    match KindAt(tables, row).value
    case Call => CallIsSpelled(tables, lowering, tables.expressions.parameter[row]);
    case StructLiteral =>
      QualifiedIs(tables, lowering, ResultAt(tables, row), LiteralName(tables, row));
    case Method =>
    case Identifier =>
    case Literal =>
    case Index =>
    case Let =>
    case Block =>
    case _ => DirectStands(tables, lowering, row, trees, tree);
  }

  // ---- Members of a struct literal ----------------------------------------------------------------

  lemma MemberPartsPrint(member: Tree, value: Text, level: nat)
    requires |member.children| == 1 && AsText(Only(member, level)) == value
    ensures AsText(MemberPrint(member, level)) == MemberLine(member.text, IsShorthand(member), value, level)
  {
    if !IsShorthand(member) {
      AllIsGlue([Said(": "), Only(member, level)], [Lit(": "), value]);
    }
    AllIsGlue([Ok(Indentation(level)), Ok(member.text), ValuePrint(member, level), Said(",\n")],
              [Some(Indentation(level)), Some(member.text),
               if IsShorthand(member) then Some([]) else Glue([Lit(": "), value]), Lit(",\n")]);
  }

  lemma ValuelessMember(member: Tree, level: nat)
    requires |member.children| == 1 && !IsShorthand(member) && AsText(Only(member, level)) == None
    ensures AsText(MemberPrint(member, level)) == None
  {
    MemberPartsPrint(member, None, level);
    NothingWithout([Lit(": "), None], 1);
    NothingWithout([Some(Indentation(level)), Some(member.text), Glue([Lit(": "), None]), Lit(",\n")], 2);
  }

  lemma CrowdedMember(member: Tree, level: nat)
    requires |member.children| != 1
    ensures AsText(MemberPrint(member, level)) == None
  {
  }

  /** A member with one tree under it, the one of the row it holds. */
  lemma HoldingMember(
    tables: Tables, lowering: Lowering, inner: Writer, row: ExpressionId, value: Tree, tree: Tree, level: nat)
    requires HoldsOneValue(tables, row) && tree.children == [value] && KindAt(tables, row) != Some(Index)
    requires IsMirrored(inner, ChildrenOf(tables, row)[0], value, level)
    requires StandsFor(tables, lowering, ChildrenOf(tables, row)[0], value) && StandsFor(tables, lowering, row, tree)
    ensures AsText(MemberPrint(tree, level)) == MemberText(tables, lowering, inner, row, level)
  {
    var below := ChildrenOf(tables, row)[0];
    KindsOfNodes(tables, lowering, below, value);
    MemberPartsPrint(tree, inner(below, level), level);
    assert IsShorthand(tree) <==> IsNamedLikeItsValue(tables, lowering, row);
  }

  /** A member whose node has just the trees of the rows below it under it. */
  lemma DirectMember(
    tables: Tables, lowering: Lowering, inner: Writer, row: ExpressionId, trees: seq<Tree>, tree: Tree, level: nat)
    requires Mirrors(inner, ChildrenOf(tables, row), trees)
    requires AllStandFor(tables, lowering, ChildrenOf(tables, row), trees)
    requires StandsFor(tables, lowering, row, tree) && IsDirect(tables, row) && tree.children == trees
    ensures AsText(MemberPrint(tree, level)) == MemberText(tables, lowering, inner, row, level)
  {
    if |trees| != 1 {
      CrowdedMember(tree, level);
    } else {
      assert IsMirrored(inner, ChildrenOf(tables, row)[0], trees[0], level);
      HoldingMember(tables, lowering, inner, row, trees[0], tree, level);
    }
  }

  lemma LetMember(
    tables: Tables, lowering: Lowering, inner: Writer, row: ExpressionId, trees: seq<Tree>, tree: Tree, level: nat)
    requires Mirrors(inner, ChildrenOf(tables, row), trees)
    requires AllStandFor(tables, lowering, ChildrenOf(tables, row), trees) && KindAt(tables, row) == Some(Let)
    requires tree == LetTree(tables, lowering, row, trees) && StandsFor(tables, lowering, row, tree)
    ensures AsText(MemberPrint(tree, level)) == MemberText(tables, lowering, inner, row, level)
  {
    if |tree.children| != 1 {
      CrowdedMember(tree, level);
    } else if trees == [] {
      AnnotationIsNoValue(tables, lowering, row, tree, level);
    } else {
      assert IsMirrored(inner, ChildrenOf(tables, row)[0], trees[0], level);
      HoldingMember(tables, lowering, inner, row, trees[0], tree, level);
    }
  }

  lemma AnnotationIsNoValue(tables: Tables, lowering: Lowering, row: ExpressionId, tree: Tree, level: nat)
    requires tree == LetTree(tables, lowering, row, []) && tree.children != []
    ensures AsText(MemberPrint(tree, level)) == None
  {
    TypeTreesAreTypes(tables, lowering, ResultAt(tables, row), 0);
    TypesAreNoExpressions(tree.children[0], level);
    ValuelessMember(tree, level);
  }

  lemma IndexMember(
    tables: Tables, lowering: Lowering, inner: Writer, row: ExpressionId, trees: seq<Tree>, tree: Tree, level: nat)
    requires Mirrors(inner, ChildrenOf(tables, row), trees)
    requires AllStandFor(tables, lowering, ChildrenOf(tables, row), trees) && KindAt(tables, row) == Some(Index)
    requires tree.children == Subscripted(trees) && StandsFor(tables, lowering, row, tree)
    ensures AsText(MemberPrint(tree, level)) == MemberText(tables, lowering, inner, row, level)
  {
    if |trees| != 1 {
      CrowdedMember(tree, level);
    } else {
      var below := ChildrenOf(tables, row)[0];
      SubscriptMirrors(tables, lowering, inner, below, trees[0], level);
      SubscriptMember(tree, trees[0], CastText(inner, KindAt(tables, below), below, Ascii("usize"), level), level);
    }
  }

  lemma SubscriptMember(tree: Tree, value: Tree, text: Text, level: nat)
    requires tree.children == [Spelled(ExpressionAs, Ascii("usize"), [value])]
    requires AsText(ExpressionPrint(Spelled(ExpressionAs, Ascii("usize"), [value]), level)) == text
    ensures AsText(MemberPrint(tree, level)) == MemberLine(tree.text, false, text, level)
  {
    MemberPartsPrint(tree, text, level);
  }

  lemma SubscriptMirrors(
    tables: Tables, lowering: Lowering, inner: Writer, row: ExpressionId, tree: Tree, level: nat)
    requires forall at: nat :: IsMirrored(inner, row, tree, at)
    requires StandsFor(tables, lowering, row, tree)
    ensures AsText(ExpressionPrint(Spelled(ExpressionAs, Ascii("usize"), [tree]), level))
         == CastText(inner, KindAt(tables, row), row, Ascii("usize"), level)
  {
    KindsOfNodes(tables, lowering, row, tree);
    CastPrints(inner, KindAt(tables, row), row, tree, Spelled(ExpressionAs, Ascii("usize"), [tree]), level);
  }

  lemma CastPrints(
    inner: Writer, kind: Option<ExpressionKind>, row: ExpressionId, tree: Tree, cast: Tree, level: nat)
    requires forall at: nat :: IsMirrored(inner, row, tree, at)
    requires cast.kind == ExpressionAs && cast.children == [tree] && IsOperator(kind, tree)
    ensures AsText(ExpressionPrint(cast, level)) == CastText(inner, kind, row, cast.text, level)
  {
    CastMirrors(inner, kind, [row], cast, level);
    AsIs(cast, level);
  }

  lemma BlockMember(
    tables: Tables, lowering: Lowering, inner: Writer, row: ExpressionId, trees: seq<Tree>, tree: Tree, level: nat)
    requires Mirrors(inner, ChildrenOf(tables, row), trees)
    requires AllStandFor(tables, lowering, ChildrenOf(tables, row), trees) && KindAt(tables, row) == Some(Block)
    requires tree.children == StatementTrees(tables, ChildrenOf(tables, row), trees, false)
    requires StandsFor(tables, lowering, row, tree)
    ensures AsText(MemberPrint(tree, level)) == MemberText(tables, lowering, inner, row, level)
  {
    if |trees| != 1 {
      CrowdedMember(tree, level);
    } else if Braces(KindAt(tables, ChildrenOf(tables, row)[0])) {
      assert IsMirrored(inner, ChildrenOf(tables, row)[0], trees[0], level);
      HoldingMember(tables, lowering, inner, row, trees[0], tree, level);
    } else {
      WrappedIsNoValue(tree, level);
    }
  }

  lemma WrappedIsNoValue(tree: Tree, level: nat)
    requires |tree.children| == 1 && tree.children[0].kind == Statement
    ensures AsText(MemberPrint(tree, level)) == None
  {
    StatementsAreNoExpressions(tree.children[0], level);
    ValuelessMember(tree, level);
  }

  lemma StatementsAreNoExpressions(tree: Tree, level: nat)
    requires tree.kind == Statement
    ensures ExpressionPrint(tree, level).Err?
  {
    assert ShortParts(tree, level) == PlainParts(tree, level);
    assert CallOrLongParts(tree, level) == LongParts(tree, level) == ShortParts(tree, level);
    assert Parts(tree, level) == CallOrLongParts(tree, level);
    OneFault(Unprintable(tree.kind));
  }

  /** Whatever stands in a struct literal prints as the member written straight from its row. */
  lemma MemberMirrors(
    tables: Tables, lowering: Lowering, inner: Writer, row: ExpressionId, trees: seq<Tree>, tree: Tree, level: nat)
    requires Shaped(tables, lowering, inner, row, trees, tree)
    ensures AsText(MemberPrint(tree, level)) == MemberText(tables, lowering, inner, row, level)
  {
    match KindAt(tables, row).value
    case Identifier => CrowdedMember(tree, level);
    case Literal => CrowdedMember(tree, level);
    case Let => LetMember(tables, lowering, inner, row, trees, tree, level);
    case Index => IndexMember(tables, lowering, inner, row, trees, tree, level);
    case Block => BlockMember(tables, lowering, inner, row, trees, tree, level);
    case _ => DirectMember(tables, lowering, inner, row, trees, tree, level);
  }

  // ---- Struct literals ----------------------------------------------------------------------------

  ghost predicate MembersMirror(member: Writer, rows: seq<ExpressionId>, trees: seq<Tree>) {
    && |rows| == |trees|
    && forall i, at: nat :: 0 <= i < |rows| ==> AsText(MemberPrint(trees[i], at)) == member(rows[i], at)
  }

  lemma LiteralMirrors(
    tables: Tables, lowering: Lowering, member: Writer, row: ExpressionId, trees: seq<Tree>, tree: Tree, level: nat)
    requires MembersMirror(member, ChildrenOf(tables, row), trees) && tree.children == trees
    requires tree.text == Word(tables, lowering, row) && FieldAt(tables, row) == NO_INDEX
    ensures AsText(All(StructParts(tree, level))) == LiteralText(tables, lowering, member, row, level)
  {
    var rows, members := ChildrenOf(tables, row), MemberParts(tree, level + 1);
    var line: ExpressionId -> Text := (below: ExpressionId) => member(below, level + 1);
    var texts := seq(|members|, i requires 0 <= i < |members| => line(rows[i]));
    AllIsGlue(members, texts);
    EachIsGlue(line, rows, texts);
    AllIsGlue(StructParts(tree, level),
              [Some(tree.text), Lit(" {\n"), EachText(line, rows), Some(Indentation(level)), Lit("}")]);
  }

  /** A row with its tree, and what is known of the rows below it. */
  ghost predicate Shaped(
    tables: Tables, lowering: Lowering, inner: Writer, row: ExpressionId, trees: seq<Tree>, tree: Tree)
  {
    && Mirrors(inner, ChildrenOf(tables, row), trees)
    && AllStandFor(tables, lowering, ChildrenOf(tables, row), trees)
    && KindAt(tables, row).Some? && StandsFor(tables, lowering, row, tree)
    && Holds(tables, lowering, row, trees, tree)
  }

  // ---- Which parts a node has ---------------------------------------------------------------------

  lemma OperatorIs(tree: Tree, level: nat)
    requires tree.kind == ExpressionBinary || tree.kind == ExpressionAssign
    ensures Parts(tree, level)
         == OperatorParts(
              tree, if tree.kind == ExpressionAssign && tree.text == [] then Ascii("=") else tree.text, level)
  {
  }

  lemma WhileIs(tree: Tree, level: nat)
    requires tree.kind == ExpressionWhile
    ensures Parts(tree, level) == WhileParts(tree, level)
  {
  }

  lemma ForIs(tree: Tree, level: nat)
    requires tree.kind == ExpressionFor
    ensures Parts(tree, level) == ForParts(tree, level)
  {
  }

  lemma IndexIs(tree: Tree, level: nat)
    requires tree.kind == ExpressionIndex
    ensures Parts(tree, level) == IndexParts(tree, level)
  {
  }

  predicate IsTop(kind: NodeKind) {
    || kind == ExpressionBinary || kind == ExpressionAssign || kind == ExpressionIndex || kind == ExpressionWhile
    || kind == ExpressionFor
  }

  lemma NotTop(tree: Tree, level: nat)
    requires !IsTop(tree.kind)
    ensures Parts(tree, level) == CallOrLongParts(tree, level)
  {
  }

  predicate IsMiddle(kind: NodeKind) {
    kind == ExpressionCall || kind == ExpressionMethod || kind == ExpressionAs || kind == ExpressionReturn
  }

  lemma NotMiddle(tree: Tree, level: nat)
    requires !IsTop(tree.kind) && !IsMiddle(tree.kind)
    ensures Parts(tree, level) == LongParts(tree, level)
  {
    NotTop(tree, level);
    assert CallOrLongParts(tree, level) == LongParts(tree, level);
  }

  predicate IsLong(kind: NodeKind) {
    || kind == ExpressionStruct || kind == ExpressionLet || kind == ExpressionBranch || kind == ExpressionMatch
    || kind == ExpressionBlock
  }

  lemma NotLong(tree: Tree, level: nat)
    requires !IsTop(tree.kind) && !IsMiddle(tree.kind) && !IsLong(tree.kind)
    ensures Parts(tree, level) == ShortParts(tree, level)
  {
    NotMiddle(tree, level);
    assert LongParts(tree, level) == ShortParts(tree, level);
  }

  lemma CallIs(tree: Tree, level: nat)
    requires tree.kind == ExpressionCall
    ensures Parts(tree, level) == CallParts(tree, level)
  {
    NotTop(tree, level);
  }

  lemma MethodIs(tree: Tree, level: nat)
    requires tree.kind == ExpressionMethod
    ensures Parts(tree, level) == MethodParts(tree, level)
  {
    NotTop(tree, level);
  }

  lemma AsIs(tree: Tree, level: nat)
    requires tree.kind == ExpressionAs
    ensures Parts(tree, level) == AsParts(tree, level)
  {
    NotTop(tree, level);
  }

  lemma ReturnIs(tree: Tree, level: nat)
    requires tree.kind == ExpressionReturn
    ensures Parts(tree, level) == ReturnParts(tree, level)
  {
    NotTop(tree, level);
  }

  lemma StructIs(tree: Tree, level: nat)
    requires tree.kind == ExpressionStruct
    ensures Parts(tree, level) == StructParts(tree, level)
  {
    NotMiddle(tree, level);
  }

  lemma LetIs(tree: Tree, level: nat)
    requires tree.kind == ExpressionLet
    ensures Parts(tree, level) == LetParts(tree, level)
  {
    NotMiddle(tree, level);
  }

  lemma BranchIs(tree: Tree, level: nat)
    requires tree.kind == ExpressionBranch
    ensures Parts(tree, level) == BranchParts(tree, level)
  {
    NotMiddle(tree, level);
  }

  lemma MatchIs(tree: Tree, level: nat)
    requires tree.kind == ExpressionMatch
    ensures Parts(tree, level) == MatchParts(tree, level)
  {
    NotMiddle(tree, level);
  }

  lemma BlockIs(tree: Tree, level: nat)
    requires tree.kind == ExpressionBlock
    ensures Parts(tree, level) == BlockParts(tree, level)
  {
    NotMiddle(tree, level);
  }

  lemma CaseOfIs(tree: Tree, level: nat)
    requires tree.kind == ExpressionArm
    ensures Parts(tree, level) == CaseOfParts(tree, level)
  {
    NotLong(tree, level);
  }

  lemma UnaryIs(tree: Tree, level: nat)
    requires tree.kind == ExpressionUnary
    ensures Parts(tree, level) == UnaryParts(tree, level)
  {
    NotLong(tree, level);
  }

  lemma FieldIs(tree: Tree, level: nat)
    requires tree.kind == ExpressionField
    ensures Parts(tree, level) == FieldParts(tree, level)
  {
    NotLong(tree, level);
  }

  lemma GroupIs(tree: Tree, level: nat)
    requires tree.kind == ExpressionGroup
    ensures Parts(tree, level) == PlainParts(tree, level)
  {
    NotLong(tree, level);
  }

  lemma QuestionIs(tree: Tree, level: nat)
    requires tree.kind == ExpressionQuestion
    ensures Parts(tree, level) == PlainParts(tree, level)
  {
    NotLong(tree, level);
  }

  lemma MemberIs(tree: Tree, level: nat)
    requires tree.kind == FieldValue
    ensures Parts(tree, level) == PlainParts(tree, level)
  {
    NotLong(tree, level);
  }

  lemma TextPrints(tree: Tree, level: nat)
    requires tree.kind == ExpressionPath || tree.kind == ExpressionLiteral
    ensures ExpressionPrint(tree, level) == Ok(tree.text)
  {
    NotLong(tree, level);
    var parts: seq<Print> := [Ok(tree.text)];
    assert ShortParts(tree, level) == parts;
    assert parts[..0] == [] && All([]) == Ok([]) && [] + tree.text == tree.text;
  }

  lemma FieldValuesAreNoExpressions(tree: Tree, level: nat)
    requires tree.kind == FieldValue
    ensures ExpressionPrint(tree, level).Err?
  {
    MemberIs(tree, level);
    OneFault(Unprintable(tree.kind));
  }

  // ---- One row, given the rows below it -----------------------------------------------------------

  lemma OperatorRow(kind: ExpressionKind, inner: Writer, rows: seq<ExpressionId>, tree: Tree, level: nat)
    requires Mirrors(inner, rows, tree.children) && (kind == Binary || kind == Assign)
    requires tree.kind == if kind == Binary then ExpressionBinary else ExpressionAssign
    ensures AsText(ExpressionPrint(tree, level)) == TwoText(kind, inner, rows, tree.text, level)
  {
    OperatorIs(tree, level);
    OperatorMirrors(
      kind, inner, rows, tree, if kind == Assign && tree.text == [] then Ascii("=") else tree.text, level);
  }

  lemma WhileRow(inner: Writer, rows: seq<ExpressionId>, tree: Tree, level: nat)
    requires Mirrors(inner, rows, tree.children) && tree.kind == ExpressionWhile
    ensures AsText(ExpressionPrint(tree, level))
         == TwoText(While, inner, rows, tree.text, level)
  {
    WhileIs(tree, level);
    WhileMirrors(inner, rows, tree, level);
  }

  lemma ForRow(inner: Writer, rows: seq<ExpressionId>, tree: Tree, level: nat)
    requires Mirrors(inner, rows, tree.children) && tree.kind == ExpressionFor
    ensures AsText(ExpressionPrint(tree, level))
         == TwoText(For, inner, rows, tree.text, level)
  {
    ForIs(tree, level);
    ForMirrors(inner, rows, tree, level);
  }

  lemma CallRow(inner: Writer, rows: seq<ExpressionId>, tree: Tree, level: nat)
    requires Mirrors(inner, rows, tree.children) && tree.kind == ExpressionCall
    ensures AsText(ExpressionPrint(tree, level))
         == Glue([Some(tree.text), BracketsText(inner, rows, level)])
  {
    CallIs(tree, level);
    CallMirrors(inner, rows, tree, level);
  }

  lemma MethodRow(inner: Writer, rows: seq<ExpressionId>, tree: Tree, level: nat)
    requires Mirrors(inner, rows, tree.children) && tree.kind == ExpressionMethod
    ensures AsText(ExpressionPrint(tree, level))
         == if rows == [] then None
            else Glue([inner(rows[0], level), Lit("."), Some(tree.text), BracketsText(inner, rows[1..], level)])
  {
    MethodIs(tree, level);
    MethodMirrors(inner, rows, tree, level);
  }

  lemma ReturnRow(inner: Writer, rows: seq<ExpressionId>, tree: Tree, level: nat)
    requires Mirrors(inner, rows, tree.children) && tree.kind == ExpressionReturn
    ensures AsText(ExpressionPrint(tree, level))
         == if rows == [] then Lit("return") else Glue([Lit("return"), Lit(" "), inner(rows[0], level)])
  {
    ReturnIs(tree, level);
    ReturnMirrors(inner, rows, tree, level);
  }

  lemma MatchRow(inner: Writer, rows: seq<ExpressionId>, tree: Tree, level: nat)
    requires Mirrors(inner, rows, tree.children) && tree.kind == ExpressionMatch
    ensures AsText(ExpressionPrint(tree, level))
         == MatchText(inner, rows, level)
  {
    MatchIs(tree, level);
    MatchMirrors(inner, rows, tree, level);
  }

  lemma UnaryRow(inner: Writer, rows: seq<ExpressionId>, tree: Tree, level: nat)
    requires Mirrors(inner, rows, tree.children) && tree.kind == ExpressionUnary
    ensures AsText(ExpressionPrint(tree, level))
         == OneText(Unary, inner, rows, tree.text, level)
  {
    UnaryIs(tree, level);
    UnaryMirrors(inner, rows, tree, level);
  }

  lemma FieldRow(inner: Writer, rows: seq<ExpressionId>, tree: Tree, level: nat)
    requires Mirrors(inner, rows, tree.children) && tree.kind == ExpressionField
    ensures AsText(ExpressionPrint(tree, level))
         == OneText(ExpressionKind.Field, inner, rows, tree.text, level)
  {
    FieldIs(tree, level);
    FieldMirrors(inner, rows, tree, level);
  }

  lemma GroupRow(inner: Writer, rows: seq<ExpressionId>, tree: Tree, level: nat)
    requires Mirrors(inner, rows, tree.children) && tree.kind == ExpressionGroup
    ensures AsText(ExpressionPrint(tree, level))
         == OneText(Group, inner, rows, tree.text, level)
  {
    GroupIs(tree, level);
    GroupMirrors(inner, rows, tree, level);
  }

  lemma QuestionRow(inner: Writer, rows: seq<ExpressionId>, tree: Tree, level: nat)
    requires Mirrors(inner, rows, tree.children) && tree.kind == ExpressionQuestion
    ensures AsText(ExpressionPrint(tree, level))
         == OneText(Question, inner, rows, tree.text, level)
  {
    QuestionIs(tree, level);
    QuestionMirrors(inner, rows, tree, level);
  }

  lemma CaseOfRow(inner: Writer, rows: seq<ExpressionId>, tree: Tree, level: nat)
    requires Mirrors(inner, rows, tree.children) && tree.kind == ExpressionArm
    ensures AsText(ExpressionPrint(tree, level))
         == OneText(Arm, inner, rows, tree.text, level)
  {
    CaseOfIs(tree, level);
    CaseOfMirrors(inner, rows, tree, level);
  }

  lemma CastRow(
    tables: Tables, lowering: Lowering, inner: Writer, rows: seq<ExpressionId>, tree: Tree, level: nat)
    requires Mirrors(inner, rows, tree.children) && AllStandFor(tables, lowering, rows, tree.children)
    requires tree.kind == ExpressionAs
    ensures AsText(ExpressionPrint(tree, level))
         == if |rows| != 1 then None else CastText(inner, KindAt(tables, rows[0]), rows[0], tree.text, level)
  {
    AsIs(tree, level);
    if |rows| == 1 {
      KindsOfNodes(tables, lowering, rows[0], tree.children[0]);
    }
    CastMirrors(inner, if |rows| == 1 then KindAt(tables, rows[0]) else None, rows, tree, level);
  }

  lemma IndexRow(
    tables: Tables, lowering: Lowering, inner: Writer, rows: seq<ExpressionId>, trees: seq<Tree>, tree: Tree,
    level: nat)
    requires Mirrors(inner, rows, trees) && AllStandFor(tables, lowering, rows, trees)
    requires tree.kind == ExpressionIndex && tree.children == Subscripted(trees)
    ensures AsText(ExpressionPrint(tree, level)) == IndexText(tables, inner, rows, level)
  {
    IndexIs(tree, level);
    if |rows| != 2 {
      FaultIsNoText(WrongChildren);
    } else {
      SubscriptMirrors(tables, lowering, inner, rows[1], trees[1], level);
      assert IsMirrored(inner, rows[0], trees[0], level);
      var subscript := CastText(inner, KindAt(tables, rows[1]), rows[1], Ascii("usize"), level);
      AllIsGlue(IndexParts(tree, level), [inner(rows[0], level), Lit("["), subscript, Lit("]")]);
    }
  }

  lemma AllAreExpressions(tables: Tables, lowering: Lowering, rows: seq<ExpressionId>, trees: seq<Tree>)
    requires AllStandFor(tables, lowering, rows, trees)
    ensures forall i :: 0 <= i < |trees| ==> trees[i].kind != Statement && TypePrint(trees[i]).Err?
    ensures forall i :: 0 <= i < |trees| ==> IsBlock(KindAt(tables, rows[i]), trees[i])
  {
    forall i | 0 <= i < |trees|
      ensures trees[i].kind != Statement && TypePrint(trees[i]).Err? && IsBlock(KindAt(tables, rows[i]), trees[i])
    {
      NodesAreExpressions(tables, lowering, rows[i], trees[i]);
      KindsOfNodes(tables, lowering, rows[i], trees[i]);
    }
  }

  lemma BranchRow(
    tables: Tables, lowering: Lowering, inner: Writer, rows: seq<ExpressionId>, tree: Tree, level: nat)
    requires Mirrors(inner, rows, tree.children) && AllStandFor(tables, lowering, rows, tree.children)
    requires tree.kind == ExpressionBranch
    ensures AsText(ExpressionPrint(tree, level)) == BranchText(tables, inner, rows, level)
  {
    BranchIs(tree, level);
    AllAreExpressions(tables, lowering, rows, tree.children);
    BranchMirrors(tables, inner, rows, tree, level);
  }

  lemma BlockRow(
    tables: Tables, lowering: Lowering, inner: Writer, rows: seq<ExpressionId>, trees: seq<Tree>, tree: Tree,
    level: nat)
    requires Mirrors(inner, rows, trees) && AllStandFor(tables, lowering, rows, trees)
    requires tree.kind == ExpressionBlock && tree.children == StatementTrees(tables, rows, trees, false)
    ensures AsText(ExpressionPrint(tree, level)) == BlockText(tables, inner, rows, level)
  {
    BlockIs(tree, level);
    AllAreExpressions(tables, lowering, rows, trees);
    BlockMirrors(tables, inner, rows, trees, tree, level);
  }

  lemma LetRow(
    tables: Tables, lowering: Lowering, inner: Writer, row: ExpressionId, trees: seq<Tree>, tree: Tree, level: nat)
    requires Mirrors(inner, ChildrenOf(tables, row), trees)
    requires AllStandFor(tables, lowering, ChildrenOf(tables, row), trees)
    requires KindAt(tables, row) == Some(Let) && tree == LetTree(tables, lowering, row, trees)
    ensures AsText(ExpressionPrint(tree, level)) == LetText(tables, lowering, inner, row, level)
  {
    LetIs(tree, level);
    AllAreExpressions(tables, lowering, ChildrenOf(tables, row), trees);
    LetMirrors(tables, lowering, inner, row, trees, level);
  }

  lemma LiteralRow(
    tables: Tables, lowering: Lowering, member: Writer, row: ExpressionId, trees: seq<Tree>, tree: Tree, level: nat)
    requires MembersMirror(member, ChildrenOf(tables, row), trees) && tree.children == trees
    requires KindAt(tables, row) == Some(StructLiteral) && StandsFor(tables, lowering, row, tree)
    ensures AsText(ExpressionPrint(tree, level)) == LiteralText(tables, lowering, member, row, level)
  {
    if FieldAt(tables, row) != NO_INDEX {
      FieldValuesAreNoExpressions(tree, level);
    } else {
      StructIs(tree, level);
      LiteralMirrors(tables, lowering, member, row, trees, tree, level);
    }
  }

  lemma TwoRow(kind: ExpressionKind, inner: Writer, rows: seq<ExpressionId>, tree: Tree, level: nat)
    requires Mirrors(inner, rows, tree.children) && (kind.Binary? || kind.Assign? || kind.While? || kind.For?)
    requires tree.kind == match kind
                          case Binary => ExpressionBinary
                          case Assign => ExpressionAssign
                          case While => ExpressionWhile
                          case _ => ExpressionFor
    ensures AsText(ExpressionPrint(tree, level)) == TwoText(kind, inner, rows, tree.text, level)
  {
    match kind
    case While => WhileRow(inner, rows, tree, level);
    case For => ForRow(inner, rows, tree, level);
    case _ => OperatorRow(kind, inner, rows, tree, level);
  }

  lemma OneRow(kind: ExpressionKind, inner: Writer, rows: seq<ExpressionId>, tree: Tree, level: nat)
    requires Mirrors(inner, rows, tree.children)
    requires kind.Unary? || kind.Field? || kind.Group? || kind.Question? || kind.Arm?
    requires tree.kind == match kind
                          case Unary => ExpressionUnary
                          case Field => ExpressionField
                          case Group => ExpressionGroup
                          case Question => ExpressionQuestion
                          case _ => ExpressionArm
    ensures AsText(ExpressionPrint(tree, level)) == OneText(kind, inner, rows, tree.text, level)
  {
    match kind
    case Unary => UnaryRow(inner, rows, tree, level);
    case Field => FieldRow(inner, rows, tree, level);
    case Group => GroupRow(inner, rows, tree, level);
    case Question => QuestionRow(inner, rows, tree, level);
    case Arm => CaseOfRow(inner, rows, tree, level);
  }

  lemma CallingRow(kind: ExpressionKind, inner: Writer, rows: seq<ExpressionId>, tree: Tree, level: nat)
    requires Mirrors(inner, rows, tree.children) && (kind.Wrap? || kind.Call? || kind.Method? || kind.Return?)
    requires tree.kind == match kind
                          case Method => ExpressionMethod
                          case Return => ExpressionReturn
                          case _ => ExpressionCall
    ensures AsText(ExpressionPrint(tree, level)) == CallText(kind, inner, rows, tree.text, level)
  {
    match kind
    case Method => MethodRow(inner, rows, tree, level);
    case Return => ReturnRow(inner, rows, tree, level);
    case _ => CallRow(inner, rows, tree, level);
  }

  lemma LiteralOrIndexRow(
    tables: Tables, lowering: Lowering, inner: Writer, member: Writer, row: ExpressionId, trees: seq<Tree>, tree: Tree,
    level: nat)
    requires Shaped(tables, lowering, inner, row, trees, tree)
    requires MembersMirror(member, ChildrenOf(tables, row), trees)
    requires var kind := KindAt(tables, row).value; kind.StructLiteral? || kind.Index?
    ensures AsText(ExpressionPrint(tree, level)) == LongText(tables, lowering, inner, member, row, level)
  {
    var rows := ChildrenOf(tables, row);
    match KindAt(tables, row).value
    case StructLiteral => LiteralRow(tables, lowering, member, row, trees, tree, level);
    case Index => IndexRow(tables, lowering, inner, rows, trees, tree, level);
  }

  lemma LongLetRow(
    tables: Tables, lowering: Lowering, inner: Writer, member: Writer, row: ExpressionId, trees: seq<Tree>, tree: Tree,
    level: nat)
    requires Shaped(tables, lowering, inner, row, trees, tree) && KindAt(tables, row) == Some(Let)
    ensures AsText(ExpressionPrint(tree, level)) == LongText(tables, lowering, inner, member, row, level)
  {
    LetRow(tables, lowering, inner, row, trees, tree, level);
  }

  lemma LongBlockRow(
    tables: Tables, lowering: Lowering, inner: Writer, member: Writer, row: ExpressionId, trees: seq<Tree>, tree: Tree,
    level: nat)
    requires Shaped(tables, lowering, inner, row, trees, tree) && KindAt(tables, row) == Some(Block)
    ensures AsText(ExpressionPrint(tree, level)) == LongText(tables, lowering, inner, member, row, level)
  {
    BlockRow(tables, lowering, inner, ChildrenOf(tables, row), trees, tree, level);
  }

  lemma BranchOrMatchRow(
    tables: Tables, lowering: Lowering, inner: Writer, member: Writer, row: ExpressionId, trees: seq<Tree>, tree: Tree,
    level: nat)
    requires Shaped(tables, lowering, inner, row, trees, tree)
    requires var kind := KindAt(tables, row).value; kind.Branch? || kind.Match?
    ensures AsText(ExpressionPrint(tree, level)) == LongText(tables, lowering, inner, member, row, level)
  {
    var rows := ChildrenOf(tables, row);
    match KindAt(tables, row).value
    case Branch => BranchRow(tables, lowering, inner, rows, tree, level);
    case Match => MatchRow(inner, rows, tree, level);
  }

  /** A row prints as the line written for it wherever the rows below it do. */
  lemma LineMirrors(
    tables: Tables, lowering: Lowering, inner: Writer, member: Writer, row: ExpressionId, trees: seq<Tree>, tree: Tree,
    level: nat)
    requires Shaped(tables, lowering, inner, row, trees, tree)
    requires MembersMirror(member, ChildrenOf(tables, row), trees)
    ensures AsText(ExpressionPrint(tree, level)) == LineText(tables, lowering, inner, member, row, level)
  {
    var rows, kind := ChildrenOf(tables, row), KindAt(tables, row).value;
    match kind {
      case StructLiteral | Index => LiteralOrIndexRow(tables, lowering, inner, member, row, trees, tree, level);
      case Let => LongLetRow(tables, lowering, inner, member, row, trees, tree, level);
      case Block => LongBlockRow(tables, lowering, inner, member, row, trees, tree, level);
      case Branch | Match => BranchOrMatchRow(tables, lowering, inner, member, row, trees, tree, level);
      case Wrap | Call | Method | Return => CallingRow(kind, inner, rows, tree, level);
      case Binary | Assign | While | For => TwoRow(kind, inner, rows, tree, level);
      case Unary | Field | Group | Question | Arm => OneRow(kind, inner, rows, tree, level);
      case Cast => CastRow(tables, lowering, inner, rows, tree, level);
      case Identifier | Literal => TextPrints(tree, level);
      case Parameter | Length | Allocation | Unsupported | Null => assert false;
    }
  }

  // ---- Rows all the way down ----------------------------------------------------------------------

  /** A row's tree prints as the row is written, on its own and as a member of a struct literal. */
  ghost predicate Prints(tables: Tables, lowering: Lowering, row: ExpressionId, depth: nat, tree: Tree) {
    && StandsFor(tables, lowering, row, tree)
    && (forall level: nat :: AsText(ExpressionPrint(tree, level)) == RowsAt(tables, lowering, depth)(row, level))
    && (forall level: nat :: AsText(MemberPrint(tree, level)) == MembersAt(tables, lowering, depth)(row, level))
  }

  lemma AllPrint(
    tables: Tables, lowering: Lowering, rows: seq<ExpressionId>, depth: nat, trees: seq<Tree>)
    requires |rows| == |trees| && forall i :: 0 <= i < |rows| ==> Prints(tables, lowering, rows[i], depth, trees[i])
    ensures Mirrors(RowsAt(tables, lowering, depth), rows, trees)
    ensures MembersMirror(MembersAt(tables, lowering, depth), rows, trees)
    ensures AllStandFor(tables, lowering, rows, trees)
  {
    forall i, at: nat | 0 <= i < |rows|
      ensures IsMirrored(RowsAt(tables, lowering, depth), rows[i], trees[i], at)
      ensures AsText(MemberPrint(trees[i], at)) == MembersAt(tables, lowering, depth)(rows[i], at)
    {
      assert Prints(tables, lowering, rows[i], depth, trees[i]);
    }
  }

  lemma ShapeOfTree(tables: Tables, lowering: Lowering, row: ExpressionId, depth: nat, tree: Tree)
    returns (trees: seq<Tree>)
    requires ExpressionTree(tables, lowering, row, depth) == Some(tree)
    ensures depth < 32 && KindAt(tables, row).Some? && |trees| == |ChildrenOf(tables, row)|
    ensures forall i :: 0 <= i < |trees| ==>
              ExpressionTree(tables, lowering, ChildrenOf(tables, row)[i], depth + 1) == Some(trees[i])
    ensures ShapeTree(tables, lowering, row, KindAt(tables, row).value, trees) == Some(tree)
  {
    trees := Collected(TreesOf(tables, lowering, ChildrenOf(tables, row), depth + 1)).value;
  }

  lemma RowFromBelow(
    tables: Tables, lowering: Lowering, row: ExpressionId, depth: nat, trees: seq<Tree>, tree: Tree)
    requires depth < 32 && KindAt(tables, row).Some? && |trees| == |ChildrenOf(tables, row)|
    requires ShapeTree(tables, lowering, row, KindAt(tables, row).value, trees) == Some(tree)
    requires forall i :: 0 <= i < |trees| ==>
               Prints(tables, lowering, ChildrenOf(tables, row)[i], depth + 1, trees[i])
    ensures Prints(tables, lowering, row, depth, tree)
  {
    var rows, inner := ChildrenOf(tables, row), RowsAt(tables, lowering, depth + 1);
    AllPrint(tables, lowering, rows, depth + 1, trees);
    ShapeStands(tables, lowering, row, trees, tree);
    forall level: nat
      ensures AsText(ExpressionPrint(tree, level)) == RowsAt(tables, lowering, depth)(row, level)
      ensures AsText(MemberPrint(tree, level)) == MembersAt(tables, lowering, depth)(row, level)
    {
      LineMirrors(tables, lowering, inner, MembersAt(tables, lowering, depth + 1), row, trees, tree, level);
      MemberMirrors(tables, lowering, inner, row, trees, tree, level);
    }
  }

  lemma {:induction false} RowPrints(
    tables: Tables, lowering: Lowering, row: ExpressionId, depth: nat, tree: Tree)
    requires ExpressionTree(tables, lowering, row, depth) == Some(tree)
    ensures Prints(tables, lowering, row, depth, tree)
    decreases 32 - depth
  {
    var trees := ShapeOfTree(tables, lowering, row, depth, tree);
    forall i | 0 <= i < |trees|
      ensures Prints(tables, lowering, ChildrenOf(tables, row)[i], depth + 1, trees[i])
    {
      RowPrints(tables, lowering, ChildrenOf(tables, row)[i], depth + 1, trees[i]);
    }
    RowFromBelow(tables, lowering, row, depth, trees, tree);
  }

  /** An expression that comes across prints just as it is written from its rows, or neither can be. */
  lemma LoweredExpressionPrints(
    tables: Tables, lowering: Lowering, row: ExpressionId, depth: nat, tree: Tree, level: nat)
    requires ExpressionTree(tables, lowering, row, depth) == Some(tree)
    ensures AsText(ExpressionPrint(tree, level)) == RowText(tables, lowering, row, depth, level)
  {
    RowPrints(tables, lowering, row, depth, tree);
    assert AsText(ExpressionPrint(tree, level)) == RowsAt(tables, lowering, depth)(row, level);
  }

  // ---- A whole body -------------------------------------------------------------------------------

  lemma PrintsFor(tables: Tables, lowering: Lowering, row: ExpressionId, depth: nat, tree: Tree, level: nat)
    requires ExpressionTree(tables, lowering, row, depth) == Some(tree)
    ensures AsText(ExpressionPrint(tree, level)) == RowText(tables, lowering, row, depth, level)
    ensures tree.kind != Statement
  {
    RowPrints(tables, lowering, row, depth, tree);
    LoweredExpressionPrints(tables, lowering, row, depth, tree, level);
    NodesAreExpressions(tables, lowering, row, tree);
  }

  lemma TreesBelow(tables: Tables, lowering: Lowering, row: ExpressionId, depth: nat, tree: Tree)
    requires ExpressionTree(tables, lowering, row, depth) == Some(tree) && IsDirect(tables, row)
    ensures |tree.children| == |ChildrenOf(tables, row)|
    ensures forall i :: 0 <= i < |tree.children| ==>
              ExpressionTree(tables, lowering, ChildrenOf(tables, row)[i], depth + 1) == Some(tree.children[i])
  {
    var trees := ShapeOfTree(tables, lowering, row, depth, tree);
    ShapeStands(tables, lowering, row, trees, tree);
    assert tree.children == trees;
  }

  /** A `return` with something to return has just the tree of that under it. */
  lemma ReturnedTree(tables: Tables, lowering: Lowering, row: ExpressionId, tree: Tree)
    requires ExpressionTree(tables, lowering, row, 1) == Some(tree) && KindAt(tables, row) == Some(Return)
    ensures |tree.children| == |ChildrenOf(tables, row)|
    ensures tree.children != [] ==>
              ExpressionTree(tables, lowering, ChildrenOf(tables, row)[0], 2) == Some(tree.children[0])
  {
    TreesBelow(tables, lowering, row, 1, tree);
  }

  lemma ReturnedStatement(tree: Tree)
    ensures StatementTree(Some(Return), tree, true) == if tree.children != [] then tree.children[0] else tree
  {
  }

  lemma LastStatement(kind: Option<ExpressionKind>, tree: Tree)
    requires IsValue(kind) && kind != Some(Return)
    ensures StatementTree(kind, tree, true) == tree
  {
  }

  lemma LastMirrors(tables: Tables, lowering: Lowering, row: ExpressionId, tree: Tree, statement: Tree, level: nat)
    requires ExpressionTree(tables, lowering, row, 1) == Some(tree) && IsValue(KindAt(tables, row))
    requires statement == StatementTree(KindAt(tables, row), tree, true)
    ensures AsText(ExpressionPrint(statement, level)) == LastText(tables, lowering, row, level)
    ensures statement.kind != Statement
  {
    PrintsFor(tables, lowering, row, 1, tree, level);
    if KindAt(tables, row) == Some(Return) {
      ReturnedTree(tables, lowering, row, tree);
      ReturnedStatement(tree);
      if tree.children != [] {
        PrintsFor(tables, lowering, ChildrenOf(tables, row)[0], 2, tree.children[0], level);
      }
    } else {
      LastStatement(KindAt(tables, row), tree);
    }
  }

  lemma LinePrints(statement: Tree, value: Text, level: nat)
    requires statement.kind != Statement && AsText(ExpressionPrint(statement, level)) == value
    ensures AsText(StatementPrint(statement, level)) == Glue([Some(Indentation(level)), value, Lit("\n")])
  {
    AllIsGlue([Ok(Indentation(level)), ExpressionPrint(statement, level), Said("\n")],
              [Some(Indentation(level)), value, Lit("\n")]);
  }

  lemma StatementTreesAlike(kind: Option<ExpressionKind>, tree: Tree, last: bool)
    requires !(last && IsValue(kind))
    ensures StatementTree(kind, tree, last) == StatementTree(kind, tree, false)
  {
  }

  lemma LineOfBody(tables: Tables, lowering: Lowering, row: ExpressionId, tree: Tree, last: bool, level: nat)
    requires ExpressionTree(tables, lowering, row, 1) == Some(tree)
    ensures AsText(StatementPrint(StatementTree(KindAt(tables, row), tree, last), level))
         == BodyLine(tables, lowering, row, last, level)
  {
    var kind := KindAt(tables, row);
    if last && IsValue(kind) {
      LastMirrors(tables, lowering, row, tree, StatementTree(kind, tree, true), level);
      LinePrints(StatementTree(kind, tree, true), LastText(tables, lowering, row, level), level);
    } else {
      RowPrints(tables, lowering, row, 1, tree);
      NodesAreExpressions(tables, lowering, row, tree);
      StatementTreesAlike(kind, tree, last);
      assert IsMirrored(RowsAt(tables, lowering, 1), row, tree, level);
      StatementMirrors(RowsAt(tables, lowering, 1), kind, row, tree, level);
    }
  }

  /** The texts of the lines of a body that starts with these rows. */
  lemma {:induction false} LinesAreGlued(
    tables: Tables, lowering: Lowering, rows: seq<ExpressionId>, texts: seq<Text>, level: nat)
    requires |rows| == |texts|
    requires forall i :: 0 <= i < |rows| ==> texts[i] == BodyLine(tables, lowering, rows[i], i + 1 == |rows|, level)
    ensures LinesText(tables, lowering, rows, level) == Glue(texts)
    decreases |rows|
  {
    if rows != [] {
      LinesAreGlued(tables, lowering, rows[1..], texts[1..], level);
      GlueTwo(texts[0], Glue(texts[1..]));
    }
  }

  lemma StatementsPrint(
    tables: Tables, lowering: Lowering, rows: seq<ExpressionId>, trees: seq<Tree>, level: nat)
    requires |rows| == |trees|
    requires forall i :: 0 <= i < |rows| ==> ExpressionTree(tables, lowering, rows[i], 1) == Some(trees[i])
    ensures AsText(All(StatementParts(StatementTrees(tables, rows, trees, true), level)))
         == LinesText(tables, lowering, rows, level)
  {
    var lines := StatementParts(StatementTrees(tables, rows, trees, true), level);
    var texts := seq(|lines|, i requires 0 <= i < |lines| =>
      BodyLine(tables, lowering, rows[i], i + 1 == |rows|, level));
    forall i | 0 <= i < |lines|
      ensures AsText(lines[i]) == texts[i]
    {
      LineOfBody(tables, lowering, rows[i], trees[i], i + 1 == |rows|, level);
    }
    AllIsGlue(lines, texts);
    LinesAreGlued(tables, lowering, rows, texts, level);
  }

  lemma EndingPrints(level: nat)
    ensures AsText(StatementPrint(Spelled(ExpressionLiteral, Ascii("Ok(())"), []), level))
         == Glue([Some(Indentation(level)), Lit("Ok(())"), Lit("\n")])
  {
    var ok := Spelled(ExpressionLiteral, Ascii("Ok(())"), []);
    TextPrints(ok, level);
    LinePrints(ok, Lit("Ok(())"), level);
  }

  lemma AllOfMore(parts: seq<Print>, last: Print)
    ensures AsText(All(parts + [last])) == Glue([AsText(All(parts)), AsText(last)])
  {
    assert (parts + [last])[..|parts|] == parts;
    GlueTwo(AsText(All(parts)), AsText(last));
  }

  lemma AllOfNoMore(text: Text)
    ensures Glue([text, Some([])]) == text
  {
    GlueTwo(text, Some([]));
    assert text.Some? ==> text.value + [] == text.value;
  }

  lemma TreesOfBody(
    tables: Tables, class_: seq<Ownership.OwnershipClass>, lowering: Lowering, function_: FunctionId)
    returns (rows: seq<ExpressionId>, trees: seq<Tree>)
    requires BodyTrees(tables, class_, lowering, function_).Some?
    ensures function_ < |tables.functions.body| && rows == ChildrenOf(tables, tables.functions.body[function_])
    ensures |rows| == |trees|
    ensures forall i :: 0 <= i < |rows| ==> ExpressionTree(tables, lowering, rows[i], 1) == Some(trees[i])
    ensures BodyTrees(tables, class_, lowering, function_).value
         == StatementTrees(tables, rows, trees, true) + Ending(tables, function_, rows)
  {
    rows := ChildrenOf(tables, tables.functions.body[function_]);
    trees := Collected(TreesOf(tables, lowering, rows, 1)).value;
  }

  function EndingText(tables: Tables, function_: FunctionId, rows: seq<ExpressionId>, level: nat): Text {
    var returned := rows != [] && KindAt(tables, rows[|rows| - 1]) == Some(Return);
    if function_ < |tables.functions.flags| && tables.functions.flags[function_] % 2 == 1 && !returned then
      Glue([Some(Indentation(level)), Lit("Ok(())"), Lit("\n")])
    else Some([])
  }

  lemma EndingMirrors(
    tables: Tables, function_: FunctionId, rows: seq<ExpressionId>, statements: seq<Tree>, lines: Text, level: nat)
    requires AsText(All(StatementParts(statements, level))) == lines
    ensures AsText(All(StatementParts(statements + Ending(tables, function_, rows), level)))
         == Glue([lines, EndingText(tables, function_, rows, level)])
  {
    var ending := Ending(tables, function_, rows);
    if ending == [] {
      assert statements + ending == statements;
      AllOfNoMore(lines);
    } else {
      EndingPrints(level);
      assert StatementParts(statements + ending, level)
          == StatementParts(statements, level) + [StatementPrint(ending[0], level)];
      AllOfMore(StatementParts(statements, level), StatementPrint(ending[0], level));
    }
  }

  /** A body that comes across prints as the body written straight from its rows, or neither can be. */
  lemma LoweredBodyPrints(
    tables: Tables, class_: seq<Ownership.OwnershipClass>, lowering: Lowering, function_: FunctionId, level: nat)
    requires BodyTrees(tables, class_, lowering, function_).Some?
    ensures AsText(All(StatementParts(BodyTrees(tables, class_, lowering, function_).value, level)))
         == FunctionText(tables, lowering, function_, level)
  {
    var rows, trees := TreesOfBody(tables, class_, lowering, function_);
    StatementsPrint(tables, lowering, rows, trees, level);
    EndingMirrors(tables, function_, rows, StatementTrees(tables, rows, trees, true),
                  LinesText(tables, lowering, rows, level), level);
  }

  /** Lowers a body and writes it: the text written straight from the rows, where there is a body and it can be. */
  method SpellBody(
    out: Output, ast: Ast, tables: Tables, class_: seq<Ownership.OwnershipClass>, lowering: Lowering,
    function_: FunctionId, level: nat)
    returns (written: Option<Rendered>)
    requires ast.Valid()
    modifies out, ast
    ensures Kept(ast)
    ensures written.Some? <==> BodyTrees(tables, class_, lowering, function_).Some?
    ensures written.None? ==> out.bytes == old(out.bytes)
    ensures written.Some? ==> (written.value.Ok? <==> FunctionText(tables, lowering, function_, level).Some?)
    ensures written.Some? && written.value.Ok? ==>
              out.bytes == old(out.bytes) + FunctionText(tables, lowering, function_, level).value
  {
    var statements := LowerBody(ast, tables, class_, lowering, function_);
    if statements.None? {
      return None;
    }
    LoweredBodyPrints(tables, class_, lowering, function_, level);
    var result := RenderStatements(out, ast, statements.value, level);
    written := Some(result);
  }
}
