/** Lowering a type into the arena, against printing it directly. */
module Lower {
  import opened Basics
  import opened Facts
  import opened Arena
  import opened Render
  import Ownership

  const MAXIMUM_TYPE_DEPTH: nat := 8

  datatype Lowering = Lowering(lifetimes: seq<u32>, module_: ModuleId, qualified: bool)

  // ---- Reading the tables ---------------------------------------------------------------------------

  function ElementOf(types: Types, kind: TypeId): TypeId {
    OrElse(Get(types.element, kind), NO_INDEX)
  }

  predicate IsSigned(types: Types, kind: TypeId) {
    kind < |types.flags| && types.flags[kind] % 2 == 1
  }

  const RUST_WIDTHS: seq<u32> := [8, 16, 32, 64, 128]

  /** The narrowest integer Rust has that holds every value of the declared width. */
  function RustIntegerWidth(bits: u32): (r: Option<u32>)
    ensures r.None? <==> bits == 0 || bits > 128
    ensures r.Some? ==> bits <= r.value && r.value in RUST_WIDTHS
    ensures r.Some? ==> forall width :: width in RUST_WIDTHS && bits <= width ==> r.value <= width
  {
    if bits == 0 then None
    else if bits <= 8 then Some(8)
    else if bits <= 16 then Some(16)
    else if bits <= 32 then Some(32)
    else if bits <= 64 then Some(64)
    else if bits <= 128 then Some(128)
    else None
  }

  function IntegerName(width: u32, signed: bool): seq<u8> {
    (if signed then Ascii("i") else Ascii("u")) + Decimal(width)
  }

  /** How a name declared in another module is reached from the one being written. */
  function QualifyName(tables: Tables, lowering: Lowering, kind: TypeId, name: seq<u8>): seq<u8> {
    var owner := OrElse(Get(tables.types.module_, kind), ROOT_MODULE);
    if !lowering.qualified || owner == lowering.module_ || owner == ROOT_MODULE then name
    else
      var path := NameAt(tables, tables.modules.name, owner);
      if path == [] then name
      else (if lowering.module_ != ROOT_MODULE then Ascii("super::") else []) + path + Ascii("::") + name
  }

  /** A type written as a bare name, and the lifetimes written after it. */
  datatype Name = Name(text: seq<u8>, lifetimes: u32)

  function Unit(): Name { Name(Ascii("()"), 0) }

  /** The name of a type that has no type inside it. */
  function NameOfType(tables: Tables, lowering: Lowering, kind: TypeId): Name
    requires kind < |tables.types.kind|
  {
    match tables.types.kind[kind]
    case Integer =>
      (match RustIntegerWidth(OrElse(Get(tables.types.bitWidth, kind), 0))
       case Some(width) => Name(IntegerName(width, IsSigned(tables.types, kind)), 0)
       case None => Unit())
    case Float =>
      var width := OrElse(Get(tables.types.bitWidth, kind), 0);
      if width == 32 then Name(Ascii("f32"), 0) else if width == 64 then Name(Ascii("f64"), 0) else Unit()
    case Bool => Name(Ascii("bool"), 0)
    case Struct | Opaque =>
      var text := NameAt(tables, tables.types.name, kind);
      if text == [] then Unit()
      else Name(QualifyName(tables, lowering, kind, text), OrElse(Get(lowering.lifetimes, kind), 0))
    case _ => Unit()
  }

  // ---- The tree a type lowers to, and the text it should print as -----------------------------------

  function Leaf(name: Name): Tree {
    Node(TypePath, name.text, [], 0, name.lifetimes, [])
  }

  function Parent(kind: NodeKind, number: u32, flags: u32, inner: Tree): Tree {
    Node(kind, [], [], number, flags, [inner])
  }

  function TypeTree(tables: Tables, lowering: Lowering, kind: TypeId, depth: nat): Tree
    decreases MAXIMUM_TYPE_DEPTH - depth
  {
    if kind >= |tables.types.kind| || depth >= MAXIMUM_TYPE_DEPTH then Leaf(Unit())
    else
      var element := ElementOf(tables.types, kind);
      match tables.types.kind[kind]
      case Slice => Parent(TypeSliceBody, 0, 0, TypeTree(tables, lowering, element, depth + 1))
      case Pointer => TypeTree(tables, lowering, element, depth + 1)
      case Optional => Parent(TypeOption, 0, 0, TypeTree(tables, lowering, element, depth + 1))
      case Array =>
        Parent(TypeArray, OrElse(Get(tables.types.count, kind), 0), 0, TypeTree(tables, lowering, element, depth + 1))
      case _ => Leaf(NameOfType(tables, lowering, kind))
  }

  /** The integer type Rust has for an integer row, the unit where it has none. */
  function IntegerText(types: Types, kind: TypeId): seq<u8> {
    var bits := if kind < |types.bitWidth| then types.bitWidth[kind] else 0;
    if bits == 0 || bits > 128 then Ascii("()")
    else
      var digits :=
        if bits > 64 then "128" else if bits > 32 then "64" else if bits > 16 then "32" else if bits > 8 then "16"
        else "8";
      Ascii(if kind < |types.flags| && types.flags[kind] % 2 == 1 then "i" else "u") + Ascii(digits)
  }

  function FloatText(types: Types, kind: TypeId): seq<u8> {
    Ascii(if Get(types.bitWidth, kind) == Some(32) then "f32" else if Get(types.bitWidth, kind) == Some(64) then "f64"
          else "()")
  }

  /** The type is declared in a module that has a name, and it is not the one being written. */
  predicate IsElsewhere(tables: Tables, lowering: Lowering, kind: TypeId) {
    && lowering.qualified && kind < |tables.types.module_|
    && tables.types.module_[kind] != lowering.module_ && tables.types.module_[kind] != 0
    && NameAt(tables, tables.modules.name, tables.types.module_[kind]) != []
  }

  /** What is written before the name of a type declared in another module: `super::` from inside one, and the other. */
  function WayTo(tables: Tables, lowering: Lowering, kind: TypeId): seq<u8> {
    if !IsElsewhere(tables, lowering, kind) then []
    else
      Ascii(if lowering.module_ == 0 then "" else "super::")
        + NameAt(tables, tables.modules.name, tables.types.module_[kind]) + Ascii("::")
  }

  /** The lifetimes a type's name is written with. */
  function LifetimesText(lowering: Lowering, kind: TypeId): seq<u8> {
    var flags := if kind < |lowering.lifetimes| then lowering.lifetimes[kind] else 0;
    Ascii(match (flags / 2 % 2 == 1, flags / 4 % 2 == 1)
          case (true, true) => "<'a, 'bump>"
          case (true, false) => "<'a>"
          case (false, true) => "<'bump>"
          case (false, false) => "")
  }

  function NamedText(tables: Tables, lowering: Lowering, kind: TypeId): seq<u8> {
    var name := NameAt(tables, tables.types.name, kind);
    if name == [] then Ascii("()")
    else WayTo(tables, lowering, kind) + name + LifetimesText(lowering, kind)
  }

  /** The text of a type, written straight from the tables and cut off eight types down. */
  function TypeText(tables: Tables, lowering: Lowering, kind: TypeId, depth: nat): seq<u8>
    decreases 8 - depth
  {
    if kind >= |tables.types.kind| || depth >= 8 then Ascii("()")
    else
      var element := if kind < |tables.types.element| then tables.types.element[kind] else NO_INDEX;
      match tables.types.kind[kind]
      case Slice => Ascii("[") + TypeText(tables, lowering, element, depth + 1) + Ascii("]")
      case Pointer => TypeText(tables, lowering, element, depth + 1)
      case Optional => Ascii("Option<") + TypeText(tables, lowering, element, depth + 1) + Ascii(">")
      case Array =>
        Ascii("[") + TypeText(tables, lowering, element, depth + 1)
          + (Ascii("; ") + Decimal(if kind < |tables.types.count| then tables.types.count[kind] else 0) + Ascii("]"))
      case Integer => IntegerText(tables.types, kind)
      case Float => FloatText(tables.types, kind)
      case Bool => Ascii("bool")
      case Struct => NamedText(tables, lowering, kind)
      case Opaque => NamedText(tables, lowering, kind)
      case Void => Ascii("()")
  }

  /** The text without the brackets of the slice it is, where it is one. */
  function ElementsText(tables: Tables, lowering: Lowering, kind: TypeId, depth: nat): seq<u8>
    decreases 8 - depth
  {
    var element := if kind < |tables.types.element| then tables.types.element[kind] else NO_INDEX;
    if kind >= |tables.types.kind| || depth >= 8 then TypeText(tables, lowering, kind, depth)
    else if tables.types.kind[kind] == Pointer then ElementsText(tables, lowering, element, depth + 1)
    else if tables.types.kind[kind] == Slice then TypeText(tables, lowering, element, depth + 1)
    else TypeText(tables, lowering, kind, depth)
  }

  lemma LeafPrints(name: Name)
    ensures TypePrint(Leaf(name)) == Ok(name.text + LifetimeParameters(name.lifetimes))
  {
  }

  lemma BareLeafPrints(text: seq<u8>)
    ensures TypePrint(Leaf(Name(text, 0))) == Ok(text)
  {
    LeafPrints(Name(text, 0));
    assert text + [] == text;
  }

  lemma WidthsInDigits()
    ensures Decimal(8) == Ascii("8") && Decimal(16) == Ascii("16") && Decimal(32) == Ascii("32")
    ensures Decimal(64) == Ascii("64") && Decimal(128) == Ascii("128")
  {
    assert Decimal(1) == [49] && Decimal(12) == [49, 50];
    assert Decimal(3) == [51] && Decimal(6) == [54];
  }

  lemma IntegerPrints(types: Types, kind: TypeId)
    ensures IntegerText(types, kind)
         == match RustIntegerWidth(OrElse(Get(types.bitWidth, kind), 0))
            case Some(width) => IntegerName(width, IsSigned(types, kind))
            case None => Ascii("()")
  {
    WidthsInDigits();
  }

  lemma LifetimesPrint(lowering: Lowering, kind: TypeId)
    ensures LifetimesText(lowering, kind) == LifetimeParameters(OrElse(Get(lowering.lifetimes, kind), 0))
  {
  }

  /** A qualified name is the name with the way to its module in front. */
  lemma QualifiedIs(tables: Tables, lowering: Lowering, kind: TypeId, name: seq<u8>)
    ensures QualifyName(tables, lowering, kind, name) == WayTo(tables, lowering, kind) + name
  {
    assert [] + name == name;
  }

  lemma NamedPrints(tables: Tables, lowering: Lowering, kind: TypeId)
    requires kind < |tables.types.kind| && (tables.types.kind[kind].Struct? || tables.types.kind[kind].Opaque?)
    ensures TypePrint(Leaf(NameOfType(tables, lowering, kind))) == Ok(NamedText(tables, lowering, kind))
  {
    LeafPrints(NameOfType(tables, lowering, kind));
    BareLeafPrints(Ascii("()"));
    LifetimesPrint(lowering, kind);
    QualifiedIs(tables, lowering, kind, NameAt(tables, tables.types.name, kind));
  }

  predicate HasInside(kind: TypeKind) {
    kind.Slice? || kind.Pointer? || kind.Optional? || kind.Array?
  }

  lemma NamePrints(tables: Tables, lowering: Lowering, kind: TypeId, depth: nat)
    requires kind < |tables.types.kind| && depth < 8 && !HasInside(tables.types.kind[kind])
    ensures TypePrint(Leaf(NameOfType(tables, lowering, kind))) == Ok(TypeText(tables, lowering, kind, depth))
  {
    match tables.types.kind[kind]
    case Integer =>
      IntegerPrints(tables.types, kind);
      BareLeafPrints(IntegerText(tables.types, kind));
    case Struct => NamedPrints(tables, lowering, kind);
    case Opaque => NamedPrints(tables, lowering, kind);
    case Float => BareLeafPrints(FloatText(tables.types, kind));
    case Bool => BareLeafPrints(Ascii("bool"));
    case _ => BareLeafPrints(Ascii("()"));
  }

  lemma WrapPrints(kind: NodeKind, number: u32, flags: u32, inner: Tree)
    requires Brackets(kind, number, flags).Some?
    ensures TypePrint(Parent(kind, number, flags, inner))
            == Around(Brackets(kind, number, flags).value.0, TypePrint(inner), Brackets(kind, number, flags).value.1)
  {
    var tree := Parent(kind, number, flags, inner);
    assert tree.children == [inner];
    assert OnlyChildPrint(tree) == TypePrint(inner);
    assert TypePrint(tree) == BracketedPrint(tree);
  }

  lemma OptionPrints(inner: Tree, text: seq<u8>)
    requires TypePrint(inner) == Ok(text)
    ensures TypePrint(Parent(TypeOption, 0, 0, inner)) == Ok(Ascii("Option<") + text + Ascii(">"))
  {
    WrapPrints(TypeOption, 0, 0, inner);
  }

  lemma SlicePrints(inner: Tree, text: seq<u8>)
    requires TypePrint(inner) == Ok(text)
    ensures TypePrint(Parent(TypeSliceBody, 0, 0, inner)) == Ok(Ascii("[") + text + Ascii("]"))
  {
    WrapPrints(TypeSliceBody, 0, 0, inner);
  }

  lemma ArrayPrints(count: u32, inner: Tree, text: seq<u8>)
    requires TypePrint(inner) == Ok(text)
    ensures TypePrint(Parent(TypeArray, count, 0, inner))
            == Ok(Ascii("[") + text + (Ascii("; ") + Decimal(count) + Ascii("]")))
  {
    WrapPrints(TypeArray, count, 0, inner);
  }

  /** A type prints around the print of what is inside it. */
  lemma InsidePrints(tables: Tables, lowering: Lowering, kind: TypeId, depth: nat)
    requires kind < |tables.types.kind| && depth < 8 && HasInside(tables.types.kind[kind])
    requires var element := ElementOf(tables.types, kind);
             TypePrint(TypeTree(tables, lowering, element, depth + 1))
             == Ok(TypeText(tables, lowering, element, depth + 1))
    ensures TypePrint(TypeTree(tables, lowering, kind, depth)) == Ok(TypeText(tables, lowering, kind, depth))
  {
    var element := ElementOf(tables.types, kind);
    var inner, text := TypeTree(tables, lowering, element, depth + 1), TypeText(tables, lowering, element, depth + 1);
    match tables.types.kind[kind]
    case Slice => SlicePrints(inner, text);
    case Optional => OptionPrints(inner, text);
    case Array => ArrayPrints(OrElse(Get(tables.types.count, kind), 0), inner, text);
    case Pointer =>
  }

  lemma LeafOfName(tables: Tables, lowering: Lowering, kind: TypeId, depth: nat)
    requires kind < |tables.types.kind| && depth < 8 && !HasInside(tables.types.kind[kind])
    ensures TypeTree(tables, lowering, kind, depth) == Leaf(NameOfType(tables, lowering, kind))
  {
  }

  lemma CutOffPrints(tables: Tables, lowering: Lowering, kind: TypeId, depth: nat)
    requires kind >= |tables.types.kind| || depth >= 8
    ensures TypePrint(TypeTree(tables, lowering, kind, depth)) == Ok(TypeText(tables, lowering, kind, depth))
  {
    BareLeafPrints(Ascii("()"));
  }

  /** However deep or cyclic the element links are, the lowered tree prints, and as the direct text. */
  lemma {:induction false} LoweredTypePrints(tables: Tables, lowering: Lowering, kind: TypeId, depth: nat)
    ensures TypePrint(TypeTree(tables, lowering, kind, depth)) == Ok(TypeText(tables, lowering, kind, depth))
    decreases MAXIMUM_TYPE_DEPTH - depth
  {
    if kind >= |tables.types.kind| || depth >= MAXIMUM_TYPE_DEPTH {
      CutOffPrints(tables, lowering, kind, depth);
    } else if HasInside(tables.types.kind[kind]) {
      LoweredTypePrints(tables, lowering, ElementOf(tables.types, kind), depth + 1);
      InsidePrints(tables, lowering, kind, depth);
    } else {
      NamePrints(tables, lowering, kind, depth);
      LeafOfName(tables, lowering, kind, depth);
    }
  }

  // ---- The type of a field --------------------------------------------------------------------------

  predicate IsOptional(types: Types, kind: TypeId) {
    kind < |types.kind| && types.kind[kind] == Optional
  }

  /** The optional links from `kind` on run out within the given number of steps. */
  predicate EndsWithin(types: Types, kind: TypeId, links: nat)
    decreases links
  {
    !IsOptional(types, kind) || (links > 0 && EndsWithin(types, ElementOf(types, kind), links - 1))
  }

  lemma {:induction false} EndsWithinMore(types: Types, kind: TypeId, links: nat, more: nat)
    requires EndsWithin(types, kind, links) && links <= more
    ensures EndsWithin(types, kind, more)
    decreases links
  {
    if IsOptional(types, kind) {
      EndsWithinMore(types, ElementOf(types, kind), links - 1, more - 1);
    }
  }

  lemma {:induction false} AtMost(ids: set<nat>, bound: nat)
    requires forall id :: id in ids ==> id < bound
    ensures |ids| <= bound
    decreases bound
  {
    if bound == 0 {
      assert ids == {};
    } else {
      AtMost(ids - {bound - 1}, bound - 1);
    }
  }

  /** A chain that takes exactly `links` steps to run out passes that many different types. */
  lemma {:induction false} ChainIsDistinct(types: Types, kind: TypeId, links: nat) returns (passed: set<nat>)
    requires EndsWithin(types, kind, links) && (links > 0 ==> !EndsWithin(types, kind, links - 1))
    ensures |passed| == links
    ensures forall id :: id in passed ==> id < |types.kind| && id < 0x1_0000_0000 && EndsWithin(types, id, links)
    decreases links
  {
    if links == 0 {
      passed := {};
    } else {
      var element := ElementOf(types, kind);
      var rest := ChainIsDistinct(types, element, links - 1);
      forall id | id in rest
        ensures EndsWithin(types, id, links) && id != kind
      {
        EndsWithinMore(types, id, links - 1, links);
      }
      EndsWithinMore(types, kind, links, links);
      passed := rest + {kind as nat};
    }
  }

  /** Optional links that ever run out do so within as many steps as there are types, which a caller can check. */
  lemma {:induction false} OptionalLinksEndEarly(types: Types, kind: TypeId, links: nat)
    requires EndsWithin(types, kind, links)
    ensures EndsWithin(types, kind, |types.kind|)
    decreases links
  {
    if links > 0 && EndsWithin(types, kind, links - 1) {
      OptionalLinksEndEarly(types, kind, links - 1);
    } else {
      var passed := ChainIsDistinct(types, kind, links);
      AtMost(passed, |types.kind|);
      EndsWithinMore(types, kind, links, |types.kind|);
    }
  }

  function Wrapper(class_: Ownership.OwnershipClass): Option<(NodeKind, Lifetime)> {
    match class_
    case Value => None
    case Owned => Some((TypeBoxed, Borrow))
    case Grown => Some((TypeVec, Borrow))
    case Borrowed => Some((TypeReference, Borrow))
    case Static => Some((TypeReference, StaticLifetime))
    case InArena => Some((TypeReference, ArenaLifetime))
    case Unknown => Some((TypeOptionNonNull, Borrow))
  }

  function Wrapped(class_: Ownership.OwnershipClass, body: Tree): Tree {
    match Wrapper(class_)
    case None => body
    case Some((kind, lifetime)) => Parent(kind, 0, LifetimeFlags(lifetime), body)
  }

  function FieldTree(
    tables: Tables, lowering: Lowering, kind: TypeId, class_: Ownership.OwnershipClass, links: nat): Tree
    requires EndsWithin(tables.types, kind, links)
    decreases links
  {
    if IsOptional(tables.types, kind) then
      Parent(TypeOption, 0, 0, FieldTree(tables, lowering, ElementOf(tables.types, kind), class_, links - 1))
    else Wrapped(class_, TypeTree(tables, lowering, kind, 0))
  }

  /** How a class spells the thing it points at. */
  function ClassText(tables: Tables, lowering: Lowering, kind: TypeId, class_: Ownership.OwnershipClass): seq<u8> {
    var body := TypeText(tables, lowering, kind, 0);
    match class_
    case Value => body
    case Owned => Ascii("Box<") + body + Ascii(">")
    case Grown => Ascii("Vec<") + ElementsText(tables, lowering, kind, 0) + Ascii(">")
    case Borrowed => Ascii("&") + (Ascii("'a") + Ascii(" ")) + body
    case Static => Ascii("&") + (Ascii("'static") + Ascii(" ")) + body
    case InArena => Ascii("&") + (Ascii("'bump") + Ascii(" ")) + body
    case Unknown => Ascii("Option<core::ptr::NonNull<") + body + Ascii(">>")
  }

  /** The ownership goes inside every option. */
  function FieldText(
    tables: Tables, lowering: Lowering, kind: TypeId, class_: Ownership.OwnershipClass, links: nat): seq<u8>
    requires EndsWithin(tables.types, kind, links)
    decreases links
  {
    if kind < |tables.types.kind| && tables.types.kind[kind].Optional? then
      var element := if kind < |tables.types.element| then tables.types.element[kind] else NO_INDEX;
      Ascii("Option<") + FieldText(tables, lowering, element, class_, links - 1) + Ascii(">")
    else ClassText(tables, lowering, kind, class_)
  }

  /** What a vector of a tree's elements prints between its angle brackets. */
  function ElementsOf(tree: Tree): Print {
    if tree.kind == TypeSliceBody then OnlyChildPrint(tree) else TypePrint(tree)
  }

  lemma OtherTreesAreNoSlice(tables: Tables, lowering: Lowering, kind: TypeId, depth: nat)
    requires kind < |tables.types.kind| && depth < 8 ==>
               !tables.types.kind[kind].Slice? && !tables.types.kind[kind].Pointer?
    ensures TypeTree(tables, lowering, kind, depth).kind != TypeSliceBody
  {
  }

  lemma OtherElementsPrint(tables: Tables, lowering: Lowering, kind: TypeId, depth: nat)
    requires kind < |tables.types.kind| && depth < 8 ==>
               !tables.types.kind[kind].Slice? && !tables.types.kind[kind].Pointer?
    ensures ElementsOf(TypeTree(tables, lowering, kind, depth)) == Ok(ElementsText(tables, lowering, kind, depth))
  {
    OtherTreesAreNoSlice(tables, lowering, kind, depth);
    LoweredTypePrints(tables, lowering, kind, depth);
  }

  lemma SliceElementsPrint(tables: Tables, lowering: Lowering, kind: TypeId, depth: nat)
    requires kind < |tables.types.kind| && depth < 8 && tables.types.kind[kind].Slice?
    ensures ElementsOf(TypeTree(tables, lowering, kind, depth)) == Ok(ElementsText(tables, lowering, kind, depth))
  {
    var element := ElementOf(tables.types, kind);
    LoweredTypePrints(tables, lowering, element, depth + 1);
    assert TypeTree(tables, lowering, kind, depth).children == [TypeTree(tables, lowering, element, depth + 1)];
  }

  /** A tree prints without the brackets of the slice it is. */
  lemma {:induction false} ElementsPrint(tables: Tables, lowering: Lowering, kind: TypeId, depth: nat)
    ensures ElementsOf(TypeTree(tables, lowering, kind, depth)) == Ok(ElementsText(tables, lowering, kind, depth))
    decreases MAXIMUM_TYPE_DEPTH - depth
  {
    if kind < |tables.types.kind| && depth < 8 && tables.types.kind[kind].Pointer? {
      ElementsPrint(tables, lowering, ElementOf(tables.types, kind), depth + 1);
    } else if kind < |tables.types.kind| && depth < 8 && tables.types.kind[kind].Slice? {
      SliceElementsPrint(tables, lowering, kind, depth);
    } else {
      OtherElementsPrint(tables, lowering, kind, depth);
    }
  }

  lemma ReferencePrints(lifetime: Lifetime, body: Tree, name: seq<u8>)
    requires LifetimeText(LifetimeFlags(lifetime)) == name && name != [] && TypePrint(body).Ok?
    ensures TypePrint(Parent(TypeReference, 0, LifetimeFlags(lifetime), body))
            == Ok(Ascii("&") + (name + Ascii(" ")) + TypePrint(body).value)
  {
    WrapPrints(TypeReference, 0, LifetimeFlags(lifetime), body);
    var before := Ascii("&") + (name + Ascii(" "));
    assert before + TypePrint(body).value + [] == before + TypePrint(body).value;
  }

  lemma VectorPrints(tables: Tables, lowering: Lowering, kind: TypeId)
    ensures TypePrint(Parent(TypeVec, 0, 0, TypeTree(tables, lowering, kind, 0)))
            == Ok(Ascii("Vec<") + ElementsText(tables, lowering, kind, 0) + Ascii(">"))
  {
    ElementsPrint(tables, lowering, kind, 0);
    var body := TypeTree(tables, lowering, kind, 0);
    var tree := Parent(TypeVec, 0, 0, body);
    assert tree.children == [body];
    assert TypePrint(tree) == VecPrint(tree);
    assert VecPrint(tree) == Around(Ascii("Vec<"), ElementsOf(body), Ascii(">"));
  }

  lemma BoxPrints(body: Tree, text: seq<u8>)
    requires TypePrint(body) == Ok(text)
    ensures TypePrint(Parent(TypeBoxed, 0, 0, body)) == Ok(Ascii("Box<") + text + Ascii(">"))
  {
    WrapPrints(TypeBoxed, 0, 0, body);
  }

  lemma RawPointerPrints(body: Tree, text: seq<u8>)
    requires TypePrint(body) == Ok(text)
    ensures TypePrint(Parent(TypeOptionNonNull, 0, 0, body))
            == Ok(Ascii("Option<core::ptr::NonNull<") + text + Ascii(">>"))
  {
    WrapPrints(TypeOptionNonNull, 0, 0, body);
  }

  lemma ClassPrints(tables: Tables, lowering: Lowering, kind: TypeId, class_: Ownership.OwnershipClass)
    ensures TypePrint(Wrapped(class_, TypeTree(tables, lowering, kind, 0)))
            == Ok(ClassText(tables, lowering, kind, class_))
  {
    LoweredTypePrints(tables, lowering, kind, 0);
    var body := TypeTree(tables, lowering, kind, 0);
    match class_
    case Value =>
    case Owned => BoxPrints(body, TypeText(tables, lowering, kind, 0));
    case Grown => VectorPrints(tables, lowering, kind);
    case Borrowed => ReferencePrints(Borrow, body, Ascii("'a"));
    case Static => ReferencePrints(StaticLifetime, body, Ascii("'static"));
    case InArena => ReferencePrints(ArenaLifetime, body, Ascii("'bump"));
    case Unknown => RawPointerPrints(body, TypeText(tables, lowering, kind, 0));
  }

  /** A lowered field type prints, and as the text written straight from the tables. */
  lemma {:induction false} LoweredFieldPrints(
    tables: Tables, lowering: Lowering, kind: TypeId, class_: Ownership.OwnershipClass, links: nat)
    requires EndsWithin(tables.types, kind, links)
    ensures TypePrint(FieldTree(tables, lowering, kind, class_, links))
            == Ok(FieldText(tables, lowering, kind, class_, links))
    decreases links
  {
    if IsOptional(tables.types, kind) {
      var element := ElementOf(tables.types, kind);
      LoweredFieldPrints(tables, lowering, element, class_, links - 1);
      OptionPrints(FieldTree(tables, lowering, element, class_, links - 1),
                   FieldText(tables, lowering, element, class_, links - 1));
    } else {
      ClassPrints(tables, lowering, kind, class_);
    }
  }

  // ---- Lowering into the arena ----------------------------------------------------------------------

  /** The node stands for the tree, and nothing that was there before has changed. */
  twostate predicate Added(ast: Ast, node: NodeId, tree: Tree)
    reads ast
  {
    && ast.Valid()
    && old(ast.trees) <= ast.trees && old(ast.texts) <= ast.texts
    && node < |ast.trees| && ast.trees[node] == tree
  }

  method PushLeaf(ast: Ast, name: Name) returns (node: NodeId)
    requires ast.Valid()
    modifies ast
    ensures Added(ast, node, Leaf(name))
  {
    var text := ast.PushString(name.text);
    node := ast.PushNode(TypePath, Some(text), None, 0, name.lifetimes, []);
  }

  method PushWrap(ast: Ast, kind: NodeKind, number: u32, flags: u32, inner: NodeId) returns (node: NodeId)
    requires ast.Valid() && inner < |ast.trees|
    modifies ast
    ensures Added(ast, node, Parent(kind, number, flags, old(ast.trees)[inner]))
  {
    assert Gather(ast.trees, [inner]) == [ast.trees[inner]];
    node := ast.PushNode(kind, None, None, number, flags, [inner]);
  }

  method LowerTypeBody(ast: Ast, tables: Tables, lowering: Lowering, kind: TypeId, depth: nat) returns (node: NodeId)
    requires ast.Valid()
    modifies ast
    ensures Added(ast, node, TypeTree(tables, lowering, kind, depth))
    decreases MAXIMUM_TYPE_DEPTH - depth
  {
    if kind >= |tables.types.kind| || depth >= MAXIMUM_TYPE_DEPTH {
      node := PushLeaf(ast, Unit());
      return;
    }
    var element := ElementOf(tables.types, kind);
    match tables.types.kind[kind] {
      case Slice =>
        var inner := LowerTypeBody(ast, tables, lowering, element, depth + 1);
        node := PushWrap(ast, TypeSliceBody, 0, 0, inner);
      case Pointer => node := LowerTypeBody(ast, tables, lowering, element, depth + 1);
      case Optional =>
        var inner := LowerTypeBody(ast, tables, lowering, element, depth + 1);
        node := PushWrap(ast, TypeOption, 0, 0, inner);
      case Array =>
        var inner := LowerTypeBody(ast, tables, lowering, element, depth + 1);
        node := PushWrap(ast, TypeArray, OrElse(Get(tables.types.count, kind), 0), 0, inner);
      case _ => node := PushLeaf(ast, NameOfType(tables, lowering, kind));
    }
  }

  /** The optional chain has to run out: the source follows it without a depth limit. */
  method LowerFieldType(
    ast: Ast, tables: Tables, lowering: Lowering, kind: TypeId, class_: Ownership.OwnershipClass, ghost links: nat)
    returns (node: NodeId)
    requires ast.Valid() && EndsWithin(tables.types, kind, links)
    modifies ast
    ensures Added(ast, node, FieldTree(tables, lowering, kind, class_, links))
    decreases links
  {
    if IsOptional(tables.types, kind) {
      var inner := LowerFieldType(ast, tables, lowering, ElementOf(tables.types, kind), class_, links - 1);
      node := PushWrap(ast, TypeOption, 0, 0, inner);
      return;
    }
    node := LowerTypeBody(ast, tables, lowering, kind, 0);
    match Wrapper(class_)
    case None =>
    case Some((wrapper, lifetime)) => node := PushWrap(ast, wrapper, 0, LifetimeFlags(lifetime), node);
  }

  /** Lowering a field's type and printing it writes what the direct printer would, and leaves the rest alone. */
  method SpellFieldType(
    out: Output, ast: Ast, tables: Tables, lowering: Lowering, kind: TypeId, class_: Ownership.OwnershipClass)
    returns (node: NodeId)
    requires ast.Valid() && EndsWithin(tables.types, kind, |tables.types.kind|)
    modifies out, ast
    ensures Added(ast, node, FieldTree(tables, lowering, kind, class_, |tables.types.kind|))
    ensures out.bytes == old(out.bytes) + FieldText(tables, lowering, kind, class_, |tables.types.kind|)
  {
    node := LowerFieldType(ast, tables, lowering, kind, class_, |tables.types.kind|);
    LoweredFieldPrints(tables, lowering, kind, class_, |tables.types.kind|);
    var result := RenderType(out, ast, node);
  }
}
