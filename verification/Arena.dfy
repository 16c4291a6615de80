/** The flat tree the emitter writes into: parallel columns, children named by handle. */
module Arena {
  import opened Basics

  type NodeId = nat

  datatype NodeKind =
    | File | Struct | Field | TypePath | TypeSliceBody | TypeBoxed | TypeReference | TypeOptionNonNull
    | AssertSize | AssertAlignment | AssertOffset | Enum | Variant | Implementation | Function | Parameter
    | ExpressionStruct | FieldValue | ExpressionLiteral | ExpressionPath | ExpressionCall | ExpressionTry
    | TypeOption | TypeArray | TypeResult | Discard | Module | ExpressionBinary | ExpressionUnary
    | ExpressionField | ExpressionIndex | ExpressionBranch | ExpressionBlock | ExpressionReturn
    | ExpressionLet | ExpressionAssign | ExpressionGroup | ExpressionQuestion | Statement
    | ExpressionMethod | ExpressionWhile | ExpressionFor | ExpressionMatch | ExpressionArm | TypeVec
    | ExpressionAs | TypeReferenceMut

  /** What a node stands for, once every handle in it is followed. */
  datatype Tree = Node(
    kind: NodeKind,
    text: seq<u8>,
    secondaryText: seq<u8>,
    number: u32,
    flags: u32,
    children: seq<Tree>)

  /** A handle into the text pool; `None` is the absent handle. */
  type TextId = Option<nat>

  function TextIn(texts: seq<seq<u8>>, id: TextId): seq<u8> {
    if id.Some? && id.value < |texts| then texts[id.value] else []
  }

  predicate Known(texts: seq<seq<u8>>, id: TextId) {
    id.Some? ==> id.value < |texts|
  }

  datatype Columns = Columns(
    kind: seq<NodeKind>,
    text: seq<TextId>,
    secondaryText: seq<TextId>,
    number: seq<u32>,
    flags: seq<u32>,
    childStart: seq<nat>,
    childCount: seq<nat>,
    children: seq<NodeId>)

  predicate Parallel(columns: Columns, count: nat) {
    && |columns.kind| == |columns.text| == |columns.secondaryText| == count
    && |columns.number| == |columns.flags| == |columns.childStart| == |columns.childCount| == count
  }

  /** The handles name rows before `node`, and `children` is what those rows stand for. */
  ghost predicate AreTrees(ids: seq<NodeId>, trees: seq<Tree>, node: nat, children: seq<Tree>)
    requires node <= |trees|
  {
    && |children| == |ids|
    && forall i :: 0 <= i < |ids| ==> ids[i] < node && children[i] == trees[ids[i]]
  }

  /** The children of a row are the trees of earlier rows. */
  ghost predicate HoldsChildren(columns: Columns, trees: seq<Tree>, node: nat)
    requires Parallel(columns, |trees|) && node < |trees|
  {
    var start, count := columns.childStart[node], columns.childCount[node];
    && start + count <= |columns.children|
    && AreTrees(columns.children[start..start + count], trees, node, trees[node].children)
  }

  ghost predicate HoldsNode(columns: Columns, texts: seq<seq<u8>>, trees: seq<Tree>, node: nat)
    requires Parallel(columns, |trees|) && node < |trees|
  {
    && Known(texts, columns.text[node]) && Known(texts, columns.secondaryText[node])
    && trees[node].kind == columns.kind[node]
    && trees[node].text == TextIn(texts, columns.text[node])
    && trees[node].secondaryText == TextIn(texts, columns.secondaryText[node])
    && trees[node].number == columns.number[node]
    && trees[node].flags == columns.flags[node]
    && HoldsChildren(columns, trees, node)
  }

  /** Every row of the columns stands for the tree at its place. */
  ghost predicate Holds(columns: Columns, texts: seq<seq<u8>>, trees: seq<Tree>) {
    && Parallel(columns, |trees|)
    && forall node :: 0 <= node < |trees| ==> HoldsNode(columns, texts, trees, node)
  }

  /** The columns settle the trees: there is nothing else they could stand for. */
  lemma {:induction false} ColumnsSettleTheTrees(
    columns: Columns, texts: seq<seq<u8>>, a: seq<Tree>, b: seq<Tree>, count: nat)
    requires Holds(columns, texts, a) && Holds(columns, texts, b) && count <= |a|
    ensures |a| == |b| && a[..count] == b[..count]
    decreases count
  {
    if count > 0 {
      var node := count - 1;
      ColumnsSettleTheTrees(columns, texts, a, b, node);
      assert HoldsNode(columns, texts, a, node) && HoldsNode(columns, texts, b, node);
      var start := columns.childStart[node];
      var ids := columns.children[start..start + columns.childCount[node]];
      assert AreTrees(ids, a, node, a[node].children) && AreTrees(ids, b, node, b[node].children);
      forall i | 0 <= i < |ids|
        ensures a[node].children[i] == b[node].children[i]
      {
        assert ids[i] < node;
        assert a[..node][ids[i]] == b[..node][ids[i]];
      }
      assert a[node].children == b[node].children;
      assert a[..count] == a[..node] + [a[node]] && b[..count] == b[..node] + [b[node]];
    }
  }

  function Gather(trees: seq<Tree>, nodes: seq<NodeId>): (r: seq<Tree>)
    requires forall i :: 0 <= i < |nodes| ==> nodes[i] < |trees|
    ensures |r| == |nodes| && forall i :: 0 <= i < |r| ==> r[i] == trees[nodes[i]]
  {
    seq(|nodes|, i requires 0 <= i < |nodes| => trees[nodes[i]])
  }

  lemma MoreTextHolds(columns: Columns, texts: seq<seq<u8>>, trees: seq<Tree>, text: seq<u8>)
    requires Holds(columns, texts, trees)
    ensures Holds(columns, texts + [text], trees)
  {
    forall node | 0 <= node < |trees|
      ensures HoldsNode(columns, texts + [text], trees, node)
    {
      assert HoldsNode(columns, texts, trees, node);
    }
  }

  function Longer(columns: Columns, kind: NodeKind, text: TextId, secondaryText: TextId, number: u32, flags: u32,
                  children: seq<NodeId>): Columns
  {
    Columns(
      columns.kind + [kind], columns.text + [text], columns.secondaryText + [secondaryText],
      columns.number + [number], columns.flags + [flags],
      columns.childStart + [|columns.children|], columns.childCount + [|children|],
      columns.children + children)
  }

  lemma OneMoreNodeHolds(
    columns: Columns, texts: seq<seq<u8>>, trees: seq<Tree>,
    kind: NodeKind, text: TextId, secondaryText: TextId, number: u32, flags: u32, children: seq<NodeId>)
    requires Holds(columns, texts, trees) && Known(texts, text) && Known(texts, secondaryText)
    requires forall i :: 0 <= i < |children| ==> children[i] < |trees|
    ensures Holds(Longer(columns, kind, text, secondaryText, number, flags, children), texts,
                  trees + [Node(kind, TextIn(texts, text), TextIn(texts, secondaryText), number, flags,
                                Gather(trees, children))])
  {
    var longer := Longer(columns, kind, text, secondaryText, number, flags, children);
    var more := trees + [Node(kind, TextIn(texts, text), TextIn(texts, secondaryText), number, flags,
                              Gather(trees, children))];
    forall node | 0 <= node < |more|
      ensures HoldsNode(longer, texts, more, node)
    {
      if node < |trees| {
        assert HoldsNode(columns, texts, trees, node);
        var start, end := columns.childStart[node], columns.childStart[node] + columns.childCount[node];
        assert longer.children[start..end] == columns.children[start..end];
      } else {
        assert longer.children[|columns.children|..] == children;
      }
    }
  }

  class Ast {
    var kind: seq<NodeKind>
    var text: seq<TextId>
    var secondaryText: seq<TextId>
    var number: seq<u32>
    var flags: seq<u32>
    var childStart: seq<nat>
    var childCount: seq<nat>
    var children: seq<NodeId>
    var texts: seq<seq<u8>>
    // What each row stands for.
    ghost var trees: seq<Tree>

    ghost function Nodes(): Columns
      reads this
    {
      Columns(kind, text, secondaryText, number, flags, childStart, childCount, children)
    }

    ghost predicate Valid()
      reads this
    {
      Holds(Nodes(), texts, trees)
    }

    constructor ()
      ensures Valid() && trees == [] && texts == []
    {
      kind, text, secondaryText, number, flags := [], [], [], [], [];
      childStart, childCount, children, texts, trees := [], [], [], [], [];
    }

    method PushString(bytes: seq<u8>) returns (id: nat)
      requires Valid()
      modifies this`texts
      ensures Valid()
      ensures texts == old(texts) + [bytes] && id == |old(texts)|
    {
      MoreTextHolds(Nodes(), texts, trees, bytes);
      texts := texts + [bytes];
      id := |texts| - 1;
    }

    /** Adds a row at the end, so every earlier row still stands for what it did. */
    method PushNode(kind: NodeKind, text: TextId, secondaryText: TextId, number: u32, flags: u32,
                    children: seq<NodeId>)
      returns (node: NodeId)
      requires Valid() && Known(texts, text) && Known(texts, secondaryText)
      requires forall i :: 0 <= i < |children| ==> children[i] < |trees|
      modifies this
      ensures Valid() && texts == old(texts) && node == |old(trees)|
      ensures trees == old(trees) + [Node(kind, TextIn(texts, text), TextIn(texts, secondaryText), number, flags,
                                          Gather(old(trees), children))]
    {
      OneMoreNodeHolds(Nodes(), texts, trees, kind, text, secondaryText, number, flags, children);
      var childStart := |this.children|;
      this.children := this.children + children;
      this.kind := this.kind + [kind];
      this.text := this.text + [text];
      this.secondaryText := this.secondaryText + [secondaryText];
      this.number := this.number + [number];
      this.flags := this.flags + [flags];
      this.childStart := this.childStart + [childStart];
      this.childCount := this.childCount + [|children|];
      trees := trees + [Node(kind, TextIn(texts, text), TextIn(texts, secondaryText), number, flags,
                             Gather(trees, children))];
      node := |this.kind| - 1;
    }

    /** The children of a row, empty for a row that does not exist. */
    function NodeChildren(node: NodeId): (r: seq<NodeId>)
      requires Valid()
      reads this
      ensures |r| == if node < |trees| then |trees[node].children| else 0
      ensures forall i :: 0 <= i < |r| ==> r[i] < node && r[i] < |trees| && trees[r[i]] == trees[node].children[i]
    {
      if node >= |childStart| then []
      else
        assert HoldsNode(Nodes(), texts, trees, node);
        children[childStart[node]..childStart[node] + childCount[node]]
    }

    /** The text a row carries. */
    function TextOf(node: NodeId): (r: seq<u8>)
      requires Valid() && node < |kind|
      reads this
      ensures node < |trees| && r == trees[node].text && kind[node] == trees[node].kind
      ensures flags[node] == trees[node].flags && number[node] == trees[node].number
    {
      assert HoldsNode(Nodes(), texts, trees, node);
      TextIn(texts, text[node])
    }
  }
}
