/** The text of a body, written straight from its rows, and the body that is lowered and printed. */
module BodyText {
  import opened Basics
  import opened Facts
  import opened Arena
  import opened Render
  import opened Printing
  import opened Expressions
  import opened Lower
  import opened Body
  import Ownership

  // ---- Texts that may not be there ----------------------------------------------------------------

  type Text = Option<seq<u8>>

  /** What is written for a row, and for what is below it, at some level of indentation. */
  type Writer = (ExpressionId, nat) -> Text

  function Lit(text: string): Text { Some(Ascii(text)) }

  function Glue(parts: seq<Text>): Text {
    if parts == [] then Some([])
    else
      match (parts[0], Glue(parts[1..]))
      case (Some(first), Some(rest)) => Some(first + rest)
      case _ => None
  }

  function AsText(printed: Print): Text {
    match printed
    case Ok(text) => Some(text)
    case Err(_) => None
  }

  ghost predicate Alike(parts: seq<Print>, texts: seq<Text>) {
    |parts| == |texts| && forall i :: 0 <= i < |parts| ==> AsText(parts[i]) == texts[i]
  }

  lemma {:induction false} GlueLast(parts: seq<Text>, last: Text)
    ensures Glue(parts + [last])
         == if Glue(parts).Some? && last.Some? then Some(Glue(parts).value + last.value) else None
    decreases |parts|
  {
    if parts == [] {
      assert (parts + [last])[1..] == [];
      assert last.Some? ==> last.value + [] == last.value == [] + last.value;
    } else {
      assert (parts + [last])[1..] == parts[1..] + [last];
      GlueLast(parts[1..], last);
      if parts[0].Some? && Glue(parts[1..]).Some? && last.Some? {
        assert parts[0].value + (Glue(parts[1..]).value + last.value)
            == (parts[0].value + Glue(parts[1..]).value) + last.value;
      }
    }
  }

  lemma {:induction false} AllIsGlue(parts: seq<Print>, texts: seq<Text>)
    requires Alike(parts, texts)
    ensures AsText(All(parts)) == Glue(texts)
    decreases |parts|
  {
    if parts != [] {
      var before, last := |parts| - 1, texts[|parts| - 1];
      AllIsGlue(parts[..before], texts[..before]);
      GlueLast(texts[..before], last);
      assert texts == texts[..before] + [last];
    }
  }

  /** Something written for each of some rows. */
  function EachText(line: ExpressionId -> Text, rows: seq<ExpressionId>): Text {
    if rows == [] then Some([])
    else Glue([line(rows[0]), EachText(line, rows[1..])])
  }

  lemma GlueTwo(first: Text, second: Text)
    ensures Glue([first, second])
         == if first.Some? && second.Some? then Some(first.value + second.value) else None
  {
    assert [first, second][1..] == [second] && [second][1..] == [];
    assert Glue([]) == Some([]);
    assert second.Some? ==> second.value + [] == second.value;
    assert Glue([second]) == second;
  }

  lemma {:induction false} EachIsGlue(line: ExpressionId -> Text, rows: seq<ExpressionId>, texts: seq<Text>)
    requires |rows| == |texts| && forall i :: 0 <= i < |rows| ==> line(rows[i]) == texts[i]
    ensures EachText(line, rows) == Glue(texts)
    decreases |rows|
  {
    if rows != [] {
      EachIsGlue(line, rows[1..], texts[1..]);
      GlueTwo(texts[0], Glue(texts[1..]));
    }
  }

  /** Rows in a list, a comma in front of all but the first. */
  function ListText(inner: Writer, rows: seq<ExpressionId>, level: nat): Text {
    if rows == [] then Some([])
    else
      Glue([inner(rows[0], level),
            EachText((row: ExpressionId) => Glue([Lit(", "), inner(row, level)]), rows[1..])])
  }

  // ---- What is written for one row ----------------------------------------------------------------

  function Braces(kind: Option<ExpressionKind>): bool {
    match kind
    case Some(While) => true
    case Some(For) => true
    case Some(Block) => true
    case Some(Branch) => true
    case _ => false
  }

  /** How a call is spelled: the way to the module of what it calls, and the name in snake case. */
  function CalleeText(tables: Tables, lowering: Lowering, callee: FunctionId): seq<u8> {
    var from := if callee < |tables.functions.module_| then tables.functions.module_[callee] else 0;
    var path := NameAt(tables, tables.modules.name, from);
    var name := SnakeCase(NameAt(tables, tables.functions.name, callee));
    if !lowering.qualified || from == lowering.module_ || path == [] then name
    else Ascii(if lowering.module_ == 0 then "" else "super::") + path + Ascii("::") + name
  }

  function FieldOn(tables: Tables, row: ExpressionId): FieldId {
    if row < |tables.expressions.field| then tables.expressions.field[row] else NO_INDEX
  }

  function TypeOn(tables: Tables, row: ExpressionId): TypeId {
    if row < |tables.expressions.result| then tables.expressions.result[row] else NO_INDEX
  }

  /** The word that goes with a row: its own text, in snake case for a method, or the name of what it stands for. */
  function Word(tables: Tables, lowering: Lowering, row: ExpressionId): seq<u8> {
    var own := NameAt(tables, tables.expressions.text, row);
    match KindAt(tables, row)
    case Some(Identifier) => own
    case Some(Literal) => own
    case Some(Cast) => own
    case Some(Wrap) => own
    case Some(Field) => own
    case Some(Binary) => own
    case Some(Unary) => own
    case Some(Let) => own
    case Some(Assign) => own
    case Some(For) => own
    case Some(Arm) => own
    case Some(Method) => SnakeCase(own)
    case Some(Call) =>
      if row >= |tables.expressions.parameter| then []
      else CalleeText(tables, lowering, tables.expressions.parameter[row])
    case Some(StructLiteral) =>
      if FieldOn(tables, row) != NO_INDEX then NameAt(tables, tables.fields.name, FieldOn(tables, row))
      else WayTo(tables, lowering, TypeOn(tables, row)) + NameAt(tables, tables.types.name, TypeOn(tables, row))
    case _ => []
  }

  function CastText(inner: Writer, kind: Option<ExpressionKind>, row: ExpressionId, to: seq<u8>, level: nat): Text {
    if kind == Some(Binary) || kind == Some(Unary) then
      Glue([Lit("("), inner(row, level), Lit(")"), Lit(" as "), Some(to)])
    else Glue([inner(row, level), Lit(" as "), Some(to)])
  }

  function ArmText(inner: Writer, kind: Option<ExpressionKind>, row: ExpressionId, level: nat): Text {
    if kind == Some(Block) then inner(row, level)
    else
      Glue([Lit("{\n"), Some(Indentation(level + 1)), inner(row, level + 1), Lit("\n"), Some(Indentation(level)),
            Lit("}")])
  }

  /** A statement that is not the last of a function: a semicolon after it, unless it ends in a brace. */
  function StatementText(inner: Writer, kind: Option<ExpressionKind>, row: ExpressionId, level: nat): Text {
    Glue([Some(Indentation(level)), inner(row, level), if Braces(kind) then Lit("\n") else Lit(";\n")])
  }

  function BlockText(tables: Tables, inner: Writer, rows: seq<ExpressionId>, level: nat): Text {
    if rows == [] then Lit("{}")
    else
      Glue([Lit("{\n"),
            EachText((row: ExpressionId) => StatementText(inner, KindAt(tables, row), row, level + 1), rows),
            Some(Indentation(level)), Lit("}")])
  }

  function LetText(tables: Tables, lowering: Lowering, inner: Writer, row: ExpressionId, level: nat): Text {
    var rows, declared := ChildrenOf(tables, row), TypeOn(tables, row);
    if |rows| != 1 then None
    else
      Glue([Lit("let "), if Get(tables.expressions.parameter, row) == Some(1) then Lit("mut ") else Some([]),
            Some(Word(tables, lowering, row)),
            if declared == NO_INDEX then Some([]) else Glue([Lit(": "), Some(TypeText(tables, lowering, declared, 0))]),
            Lit(" = "), inner(rows[0], level)])
  }

  function BranchText(tables: Tables, inner: Writer, rows: seq<ExpressionId>, level: nat): Text {
    if |rows| < 2 then None
    else
      Glue([Lit("if "), inner(rows[0], level), Lit(" "), ArmText(inner, KindAt(tables, rows[1]), rows[1], level),
            if |rows| == 2 then Some([])
            else Glue([Lit(" else "), ArmText(inner, KindAt(tables, rows[2]), rows[2], level)])])
  }

  function MatchText(inner: Writer, rows: seq<ExpressionId>, level: nat): Text {
    if rows == [] then None
    else
      Glue([Lit("match "), inner(rows[0], level), Lit(" {\n"),
            EachText((row: ExpressionId) =>
              Glue([Some(Indentation(level + 1)), inner(row, level + 1), Lit(",\n")]), rows[1..]),
            Some(Indentation(level)), Lit("}")])
  }

  /** The shapes with two rows below them. */
  function TwoText(kind: ExpressionKind, inner: Writer, rows: seq<ExpressionId>, word: seq<u8>, level: nat): Text {
    if |rows| != 2 then None
    else
      var first, second := inner(rows[0], level), inner(rows[1], level);
      match kind
      case Binary => Glue([first, Lit(" "), Some(word), Lit(" "), second])
      case Assign => Glue([first, Lit(" "), if word == [] then Lit("=") else Some(word), Lit(" "), second])
      case While => Glue([Lit("while "), first, Lit(" "), second])
      case _ => Glue([Lit("for "), Some(word), Lit(" in "), first, Lit(" "), second])
  }

  function IndexText(tables: Tables, inner: Writer, rows: seq<ExpressionId>, level: nat): Text {
    if |rows| != 2 then None
    else
      Glue([inner(rows[0], level), Lit("["),
            CastText(inner, KindAt(tables, rows[1]), rows[1], Ascii("usize"), level), Lit("]")])
  }

  /** The shapes with one row below them. */
  function OneText(kind: ExpressionKind, inner: Writer, rows: seq<ExpressionId>, word: seq<u8>, level: nat): Text {
    if |rows| != 1 then None
    else
      var only := inner(rows[0], level);
      match kind
      case Unary => Glue([Some(word), only])
      case Field => Glue([only, Lit("."), Some(word)])
      case Group => Glue([Lit("("), only, Lit(")")])
      case Question => Glue([only, Lit("?")])
      case _ => Glue([Some(word), Lit(" => "), only])
  }

  /** The row holds one value, which is written after what the row is called. */
  predicate HoldsOneValue(tables: Tables, row: ExpressionId) {
    var kind, rows := KindAt(tables, row), ChildrenOf(tables, row);
    && |rows| == 1 && kind != Some(Identifier) && kind != Some(Literal)
    && !(kind == Some(Let) && TypeOn(tables, row) != NO_INDEX)
    && !(kind == Some(Block) && !Braces(KindAt(tables, rows[0])))
  }

  /** The value is a name, and the one the row is called by. */
  predicate IsNamedLikeItsValue(tables: Tables, lowering: Lowering, row: ExpressionId)
    requires HoldsOneValue(tables, row)
  {
    var value := ChildrenOf(tables, row)[0];
    && KindAt(tables, row) != Some(Index) && KindAt(tables, value) == Some(Identifier)
    && Word(tables, lowering, value) == Word(tables, lowering, row)
  }

  function MemberLine(word: seq<u8>, alike: bool, value: Text, level: nat): Text {
    Glue([Some(Indentation(level)), Some(word), if alike then Some([]) else Glue([Lit(": "), value]), Lit(",\n")])
  }

  /** A row of a struct literal: what it is called, and what it holds, once where they are spelled alike. */
  function MemberText(tables: Tables, lowering: Lowering, inner: Writer, row: ExpressionId, level: nat): Text {
    if !HoldsOneValue(tables, row) then None
    else
      var value := ChildrenOf(tables, row)[0];
      MemberLine(
        Word(tables, lowering, row), IsNamedLikeItsValue(tables, lowering, row),
        if KindAt(tables, row) == Some(Index) then
          CastText(inner, KindAt(tables, value), value, Ascii("usize"), level)
        else inner(value, level),
        level)
  }

  function LiteralText(
    tables: Tables, lowering: Lowering, member: Writer, row: ExpressionId, level: nat): Text
  {
    if FieldOn(tables, row) != NO_INDEX then None
    else
      Glue([Some(Word(tables, lowering, row)), Lit(" {\n"),
            EachText((below: ExpressionId) => member(below, level + 1), ChildrenOf(tables, row)),
            Some(Indentation(level)), Lit("}")])
  }

  /** Rows in a list, in brackets. */
  function BracketsText(inner: Writer, rows: seq<ExpressionId>, level: nat): Text {
    Glue([Lit("("), ListText(inner, rows, level), Lit(")")])
  }

  /** Calls, methods and returns. */
  function CallText(kind: ExpressionKind, inner: Writer, rows: seq<ExpressionId>, word: seq<u8>, level: nat): Text {
    match kind
    case Method =>
      if rows == [] then None
      else Glue([inner(rows[0], level), Lit("."), Some(word), BracketsText(inner, rows[1..], level)])
    case Return => if rows == [] then Lit("return") else Glue([Lit("return"), Lit(" "), inner(rows[0], level)])
    case _ => Glue([Some(word), BracketsText(inner, rows, level)])
  }

  /** The shapes with rows of any number or kind below them. */
  function LongText(
    tables: Tables, lowering: Lowering, inner: Writer, member: Writer, row: ExpressionId, level: nat): Text
  {
    var rows := ChildrenOf(tables, row);
    match KindAt(tables, row)
    case Some(StructLiteral) => LiteralText(tables, lowering, member, row, level)
    case Some(Index) => IndexText(tables, inner, rows, level)
    case Some(Let) => LetText(tables, lowering, inner, row, level)
    case Some(Branch) => BranchText(tables, inner, rows, level)
    case Some(Match) => MatchText(inner, rows, level)
    case Some(Block) => BlockText(tables, inner, rows, level)
    case _ => None
  }

  /** One row, given what is written for the rows below it, as members of a struct literal and otherwise. */
  function LineText(
    tables: Tables, lowering: Lowering, inner: Writer, member: Writer, row: ExpressionId, level: nat): Text
  {
    var rows, word := ChildrenOf(tables, row), Word(tables, lowering, row);
    match KindAt(tables, row)
    case Some(Identifier) => Some(word)
    case Some(Literal) => Some(word)
    case Some(Cast) => if |rows| != 1 then None else CastText(inner, KindAt(tables, rows[0]), rows[0], word, level)
    case Some(Wrap) => CallText(Wrap, inner, rows, word, level)
    case Some(Call) => CallText(Call, inner, rows, word, level)
    case Some(Method) => CallText(Method, inner, rows, word, level)
    case Some(Return) => CallText(Return, inner, rows, word, level)
    case Some(Binary) => TwoText(Binary, inner, rows, word, level)
    case Some(Assign) => TwoText(Assign, inner, rows, word, level)
    case Some(While) => TwoText(While, inner, rows, word, level)
    case Some(For) => TwoText(For, inner, rows, word, level)
    case Some(Unary) => OneText(Unary, inner, rows, word, level)
    case Some(Field) => OneText(ExpressionKind.Field, inner, rows, word, level)
    case Some(Group) => OneText(Group, inner, rows, word, level)
    case Some(Question) => OneText(Question, inner, rows, word, level)
    case Some(Arm) => OneText(Arm, inner, rows, word, level)
    case _ => LongText(tables, lowering, inner, member, row, level)
  }

  /** A row and everything below it, at most 32 rows deep. */
  function RowText(tables: Tables, lowering: Lowering, row: ExpressionId, depth: nat, level: nat): Text
    decreases if depth < 32 then 32 - depth else 0, 0
  {
    if depth >= 32 then None
    else
      LineText(
        tables, lowering, RowsAt(tables, lowering, depth + 1), MembersAt(tables, lowering, depth + 1), row, level)
  }

  function RowsAt(tables: Tables, lowering: Lowering, depth: nat): Writer
    decreases if depth < 32 then 32 - depth else 0, 1
  {
    (row: ExpressionId, level: nat) => RowText(tables, lowering, row, depth, level)
  }

  function MembersAt(tables: Tables, lowering: Lowering, depth: nat): Writer
    decreases if depth < 32 then 32 - depth else 0, 2
  {
    (row: ExpressionId, level: nat) =>
      MemberText(tables, lowering, RowsAt(tables, lowering, depth + 1), row, level)
  }

  // ---- A whole body -------------------------------------------------------------------------------

  /** The last statement is the value a function gives back, unless it is one that has none. */
  predicate IsValue(kind: Option<ExpressionKind>) {
    !Braces(kind) && kind != Some(Let) && kind != Some(Assign)
  }

  /** A returned value is written without its `return` where it is what the body ends in. */
  function LastText(tables: Tables, lowering: Lowering, row: ExpressionId, level: nat): Text {
    if KindAt(tables, row) == Some(Return) && ChildrenOf(tables, row) != [] then
      RowText(tables, lowering, ChildrenOf(tables, row)[0], 2, level)
    else RowText(tables, lowering, row, 1, level)
  }

  function BodyLine(tables: Tables, lowering: Lowering, row: ExpressionId, last: bool, level: nat): Text {
    if last && IsValue(KindAt(tables, row)) then
      Glue([Some(Indentation(level)), LastText(tables, lowering, row, level), Lit("\n")])
    else StatementText(RowsAt(tables, lowering, 1), KindAt(tables, row), row, level)
  }

  function LinesText(tables: Tables, lowering: Lowering, rows: seq<ExpressionId>, level: nat): Text {
    if rows == [] then Some([])
    else Glue([BodyLine(tables, lowering, rows[0], |rows| == 1, level), LinesText(tables, lowering, rows[1..], level)])
  }

  /** The statements of a function's body, and the `Ok(())` that ends one that can fail and does not return. */
  function FunctionText(tables: Tables, lowering: Lowering, function_: FunctionId, level: nat): Text {
    if function_ >= |tables.functions.body| then None
    else
      var rows := ChildrenOf(tables, tables.functions.body[function_]);
      var fallible := function_ < |tables.functions.flags| && tables.functions.flags[function_] % 2 == 1;
      var returned := rows != [] && KindAt(tables, rows[|rows| - 1]) == Some(Return);
      Glue([LinesText(tables, lowering, rows, level),
            if fallible && !returned then Glue([Some(Indentation(level)), Lit("Ok(())"), Lit("\n")]) else Some([])])
  }
}
