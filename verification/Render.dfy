/** Printing a type out of the arena. */
module Render {
  import opened Basics
  import opened Arena

  datatype RenderError =
    | MissingRoot
    | NodeOutOfRange(node: NodeId)
    | WrongKind(node: NodeId, found: NodeKind)
    | MissingChild(node: NodeId)

  const STRUCT_FLAG_BORROW_LIFETIME: u32 := 2
  const STRUCT_FLAG_ARENA_LIFETIME: u32 := 4

  datatype Lifetime = Borrow | StaticLifetime | ArenaLifetime | Elided

  function LifetimeFlags(lifetime: Lifetime): u32 {
    match lifetime
    case Borrow => 0
    case StaticLifetime => 1
    case ArenaLifetime => 2
    case Elided => 3
  }

  predicate CarriesBorrow(flags: u32) { flags / STRUCT_FLAG_BORROW_LIFETIME % 2 == 1 }

  predicate CarriesArena(flags: u32) { flags / STRUCT_FLAG_ARENA_LIFETIME % 2 == 1 }

  function LifetimeParameters(flags: u32): seq<u8> {
    if CarriesBorrow(flags) then
      if CarriesArena(flags) then Ascii("<'a, 'bump>") else Ascii("<'a>")
    else if CarriesArena(flags) then Ascii("<'bump>")
    else []
  }

  function LifetimeText(flags: u32): seq<u8> {
    if flags == LifetimeFlags(StaticLifetime) then Ascii("'static")
    else if flags == LifetimeFlags(ArenaLifetime) then Ascii("'bump")
    else if flags == LifetimeFlags(Elided) then []
    else Ascii("'a")
  }

  /** The borrow in front of a reference: the ampersand, then a lifetime and a space where one is named. */
  function Ampersand(flags: u32): seq<u8> {
    var lifetime := LifetimeText(flags);
    Ascii("&") + if lifetime == [] then [] else lifetime + Ascii(" ")
  }

  // ---- Decimal numbers ----------------------------------------------------------------------------

  function Digit(n: nat): u8
    requires n < 10
  {
    48 + n
  }

  function Decimal(n: nat): (r: seq<u8>)
    ensures r != []
  {
    if n < 10 then [Digit(n)] else Decimal(n / 10) + [Digit(n % 10)]
  }

  /** The number a run of digits spells. */
  function NumberIn(digits: seq<u8>): int {
    if digits == [] then 0 else 10 * NumberIn(digits[..|digits| - 1]) + (digits[|digits| - 1] as int) - 48
  }

  lemma {:induction false} DecimalReadsBack(n: nat)
    ensures NumberIn(Decimal(n)) == n
  {
    if n >= 10 {
      DecimalReadsBack(n / 10);
      assert Decimal(n)[..|Decimal(n)| - 1] == Decimal(n / 10);
    } else {
      assert Decimal(n)[..0] == [];
    }
  }

  /** No digits are written before the first one that counts. */
  lemma {:induction false} DecimalStartsWithItsFirstDigit(n: nat)
    ensures Decimal(n)[0] == 48 ==> n == 0 && Decimal(n) == [48]
  {
    if n >= 10 {
      DecimalStartsWithItsFirstDigit(n / 10);
    }
  }

  // ---- What a type prints as ----------------------------------------------------------------------

  /** Why a tree has no print. */
  datatype Fault = Unprintable(found: NodeKind) | WrongChildren

  type Print = Result<seq<u8>, Fault>

  function Around(before: seq<u8>, inner: Print, after: seq<u8>): Print {
    if inner.Ok? then Ok(before + inner.value + after) else inner
  }

  /** The brackets a type puts around the one type inside it. */
  function Brackets(kind: NodeKind, number: u32, flags: u32): Option<(seq<u8>, seq<u8>)> {
    match kind
    case TypeSliceBody => Some((Ascii("["), Ascii("]")))
    case TypeBoxed => Some((Ascii("Box<"), Ascii(">")))
    case TypeReferenceMut => Some((Ampersand(flags) + Ascii("mut "), []))
    case TypeReference => Some((Ampersand(flags), []))
    case TypeOption => Some((Ascii("Option<"), Ascii(">")))
    case TypeArray => Some((Ascii("["), Ascii("; ") + Decimal(number) + Ascii("]")))
    case TypeOptionNonNull => Some((Ascii("Option<core::ptr::NonNull<"), Ascii(">>")))
    case _ => None
  }

  function OnlyChildPrint(tree: Tree): Print
    decreases tree, 0
  {
    if |tree.children| == 1 then TypePrint(tree.children[0]) else Err(WrongChildren)
  }

  /** A vector holds elements rather than a slice of them. */
  function VecPrint(tree: Tree): Print
    decreases tree, 1
  {
    if |tree.children| != 1 then Err(WrongChildren)
    else if tree.children[0].kind == TypeSliceBody then
      Around(Ascii("Vec<"), OnlyChildPrint(tree.children[0]), Ascii(">"))
    else Around(Ascii("Vec<"), TypePrint(tree.children[0]), Ascii(">"))
  }

  function ResultPrint(tree: Tree): Print
    decreases tree, 1
  {
    if |tree.children| != 2 then Err(WrongChildren)
    else
      var value := TypePrint(tree.children[0]);
      if value.Err? then value
      else Around(Ascii("Result<") + value.value + Ascii(", "), TypePrint(tree.children[1]), Ascii(">"))
  }

  function TypePrint(tree: Tree): Print
    decreases tree, 2
  {
    if tree.kind == TypePath then Ok(tree.text + LifetimeParameters(tree.flags))
    else if tree.kind == TypeVec then VecPrint(tree)
    else if tree.kind == TypeResult then ResultPrint(tree)
    else BracketedPrint(tree)
  }

  function BracketedPrint(tree: Tree): Print
    decreases tree, 1
  {
    var brackets := Brackets(tree.kind, tree.number, tree.flags);
    if brackets.None? then Err(Unprintable(tree.kind))
    else Around(brackets.value.0, OnlyChildPrint(tree), brackets.value.1)
  }

  /** What is written before a type that is borrowed to be written through. */
  function MutableBorrow(flags: u32): seq<u8> {
    if flags == 1 then Ascii("&'static mut ")
    else if flags == 2 then Ascii("&'bump mut ")
    else if flags == 3 then Ascii("&mut ")
    else Ascii("&'a mut ")
  }

  lemma BorrowIsMutable(flags: u32)
    ensures Ampersand(flags) + Ascii("mut ") == MutableBorrow(flags)
  {
    if flags == 1 {
      NamedBorrow("'static", "&'static mut ");
    } else if flags == 2 {
      NamedBorrow("'bump", "&'bump mut ");
    } else if flags != 3 {
      NamedBorrow("'a", "&'a mut ");
    }
  }

  lemma NamedBorrow(lifetime: string, whole: string)
    requires whole == "&" + lifetime + " mut "
    ensures Ascii("&") + (Ascii(lifetime) + Ascii(" ")) + Ascii("mut ") == Ascii(whole)
  {
  }

  /** A reference that can be written through says so after its lifetime. */
  lemma MutableReferencePrints(tree: Tree, text: seq<u8>)
    requires tree.kind == TypeReferenceMut && |tree.children| == 1 && TypePrint(tree.children[0]) == Ok(text)
    ensures TypePrint(tree) == Ok(MutableBorrow(tree.flags) + text)
  {
    BorrowIsMutable(tree.flags);
    var before := MutableBorrow(tree.flags);
    assert BracketedPrint(tree) == Around(before, OnlyChildPrint(tree), []);
    assert before + text + [] == before + text;
  }

  /** A result names what it holds and then what it fails with. */
  lemma ResultPrints(tree: Tree, value: seq<u8>, error: seq<u8>)
    requires tree.kind == TypeResult && |tree.children| == 2
    requires TypePrint(tree.children[0]) == Ok(value) && TypePrint(tree.children[1]) == Ok(error)
    ensures TypePrint(tree) == Ok(Ascii("Result<") + value + Ascii(", ") + error + Ascii(">"))
  {
    assert TypePrint(tree) == ResultPrint(tree);
  }

  // ---- Printing from the arena ----------------------------------------------------------------------

  class Output {
    var bytes: seq<u8>

    constructor ()
      ensures bytes == []
    {
      bytes := [];
    }

    method Write(more: seq<u8>)
      modifies this
      ensures bytes == old(bytes) + more
    {
      bytes := bytes + more;
    }
  }

  type Rendered = Result<(), RenderError>

  /** The error the printer raised is the reason the tree has no print. */
  predicate Explains(error: RenderError, fault: Fault) {
    match error
    case WrongKind(_, found) => fault == Unprintable(found)
    case MissingChild(_) => fault == WrongChildren
    case _ => false
  }

  /** Either the print was added to the output, or the reason there is none was raised. */
  predicate Wrote(result: Rendered, before: seq<u8>, after: seq<u8>, printed: Print) {
    match result
    case Ok(_) => printed.Ok? && after == before + printed.value
    case Err(error) => printed.Err? && Explains(error, printed.error)
  }

  lemma WroteAround(
    result: Rendered, start: seq<u8>, before: seq<u8>, inner: Print, end: seq<u8>, after: seq<u8>)
    requires Wrote(result, start + before, end, inner)
    ensures result.Ok? ==> Wrote(result, start, end + after, Around(before, inner, after))
    ensures result.Err? ==> Wrote(result, start, end, Around(before, inner, after))
  {
    if result.Ok? {
      assert start + before + inner.value + after == start + (before + inner.value + after);
    }
  }

  function OnlyChild(ast: Ast, node: NodeId): (r: Result<NodeId, RenderError>)
    requires ast.Valid() && node < |ast.trees|
    reads ast
    ensures if |ast.trees[node].children| == 1
            then r.Ok? && r.value < node && ast.trees[r.value] == ast.trees[node].children[0]
            else r == Err(MissingChild(node))
  {
    var children := ast.NodeChildren(node);
    if |children| != 1 then Err(MissingChild(node)) else Ok(children[0])
  }

  function KindOf(ast: Ast, node: NodeId): (r: Result<NodeKind, RenderError>)
    requires ast.Valid()
    reads ast
    ensures r == if node < |ast.trees| then Ok(ast.trees[node].kind) else Err(NodeOutOfRange(node))
  {
    if node >= |ast.kind| then Err(NodeOutOfRange(node))
    else
      var _ := ast.TextOf(node);
      Ok(ast.kind[node])
  }

  method RenderOnlyChild(out: Output, ast: Ast, node: NodeId) returns (result: Rendered)
    requires ast.Valid() && node < |ast.trees|
    modifies out
    ensures Wrote(result, old(out.bytes), out.bytes, OnlyChildPrint(ast.trees[node]))
    decreases node, 0
  {
    match OnlyChild(ast, node)
    case Err(error) => return Err(error);
    case Ok(child) => result := RenderType(out, ast, child);
  }

  method RenderVec(out: Output, ast: Ast, node: NodeId) returns (result: Rendered)
    requires ast.Valid() && node < |ast.trees|
    modifies out
    ensures Wrote(result, old(out.bytes), out.bytes, VecPrint(ast.trees[node]))
    decreases node, 1
  {
    ghost var tree := ast.trees[node];
    out.Write(Ascii("Vec<"));
    match OnlyChild(ast, node)
    case Err(error) => return Err(error);
    case Ok(body) =>
      var kind := KindOf(ast, body);
      if kind == Ok(TypeSliceBody) {
        result := RenderOnlyChild(out, ast, body);
        WroteAround(result, old(out.bytes), Ascii("Vec<"), OnlyChildPrint(tree.children[0]), out.bytes, Ascii(">"));
      } else {
        result := RenderType(out, ast, body);
        WroteAround(result, old(out.bytes), Ascii("Vec<"), TypePrint(tree.children[0]), out.bytes, Ascii(">"));
      }
      if result.Ok? {
        out.Write(Ascii(">"));
      }
  }

  method RenderResult(out: Output, ast: Ast, node: NodeId) returns (result: Rendered)
    requires ast.Valid() && node < |ast.trees|
    modifies out
    ensures Wrote(result, old(out.bytes), out.bytes, ResultPrint(ast.trees[node]))
    decreases node, 1
  {
    ghost var tree := ast.trees[node];
    var children := ast.NodeChildren(node);
    if |children| != 2 {
      return Err(MissingChild(node));
    }
    out.Write(Ascii("Result<"));
    result := RenderType(out, ast, children[0]);
    if result.Err? {
      return;
    }
    ghost var value := TypePrint(tree.children[0]).value;
    out.Write(Ascii(", "));
    ghost var before := Ascii("Result<") + value + Ascii(", ");
    assert out.bytes == old(out.bytes) + before;
    result := RenderType(out, ast, children[1]);
    WroteAround(result, old(out.bytes), before, TypePrint(tree.children[1]), out.bytes, Ascii(">"));
    if result.Ok? {
      out.Write(Ascii(">"));
    }
  }

  method RenderPath(out: Output, ast: Ast, node: NodeId)
    requires ast.Valid() && node < |ast.trees|
    modifies out
    ensures out.bytes == old(out.bytes) + (ast.trees[node].text + LifetimeParameters(ast.trees[node].flags))
  {
    var text := ast.TextOf(node);
    out.Write(text);
    out.Write(LifetimeParameters(ast.flags[node]));
  }

  method RenderBracketed(out: Output, ast: Ast, node: NodeId) returns (result: Rendered)
    requires ast.Valid() && node < |ast.trees|
    modifies out
    ensures Wrote(result, old(out.bytes), out.bytes, BracketedPrint(ast.trees[node]))
    decreases node, 1
  {
    ghost var tree := ast.trees[node];
    assert ast.kind[node] == tree.kind && ast.number[node] == tree.number && ast.flags[node] == tree.flags by {
      var _ := ast.TextOf(node);
    }
    match Brackets(ast.kind[node], ast.number[node], ast.flags[node])
    case None => return Err(WrongKind(node, ast.kind[node]));
    case Some((before, after)) =>
      out.Write(before);
      result := RenderOnlyChild(out, ast, node);
      WroteAround(result, old(out.bytes), before, OnlyChildPrint(tree), out.bytes, after);
      if result.Ok? {
        out.Write(after);
      }
  }

  /** Prints the type a node stands for. */
  method RenderType(out: Output, ast: Ast, node: NodeId) returns (result: Rendered)
    requires ast.Valid()
    modifies out
    ensures node < |ast.trees| ==> Wrote(result, old(out.bytes), out.bytes, TypePrint(ast.trees[node]))
    ensures node >= |ast.trees| ==> result == Err(NodeOutOfRange(node)) && out.bytes == old(out.bytes)
    decreases node, 2
  {
    var kind := KindOf(ast, node);
    if kind.Err? {
      return Err(kind.error);
    }
    if kind.value == TypePath {
      RenderPath(out, ast, node);
      result := Ok(());
    } else if kind.value == TypeVec {
      result := RenderVec(out, ast, node);
    } else if kind.value == TypeResult {
      result := RenderResult(out, ast, node);
    } else {
      result := RenderBracketed(out, ast, node);
    }
  }
}
