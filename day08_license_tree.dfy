/**
 * Day 8 ("Memory Maneuver"): the license tree.
 *
 * A node is written as a header of two numbers (how many children, how
 * many metadata entries), then its children one after another, then its
 * metadata entries. The grammar is read by recursive descent over the
 * sequence of 16-bit numbers; the checksum sums the metadata of every
 * node.
 */
module LicenseTree {
  import opened Wrappers

  type U16 = x: int | 0 <= x < 0x1_0000

  datatype Node = Node(metadata: seq<U16>, children: seq<Node>)

  // ---------------------------------------------------------------------
  // The grammar
  // ---------------------------------------------------------------------

  /**
   * Reads one node from the front of `tokens`: the two header numbers,
   * that many children, then that many metadata entries. Returns the node
   * and the tokens after it, or `None` when the tokens run out.
   */
  function ParseNode(tokens: seq<U16>): (r: Option<(Node, seq<U16>)>)
    ensures r.Some? ==> |tokens| >= 2 && |r.value.1| < |tokens|
    ensures r.Some? ==> |r.value.0.children| == tokens[0] && |r.value.0.metadata| == tokens[1]
    decreases |tokens|, 0
  {
    if |tokens| < 2 then None
    else
      var numChildren, numMetadata := tokens[0], tokens[1];
      match ParseChildren(tokens[2..], numChildren)
      case None => None
      case Some((children, rest)) =>
        if |rest| < numMetadata then None
        else Some((Node(rest[..numMetadata], children), rest[numMetadata..]))
  }

  /** Reads `count` nodes one after another. */
  function ParseChildren(tokens: seq<U16>, count: nat): (r: Option<(seq<Node>, seq<U16>)>)
    ensures r.Some? ==> |r.value.0| == count && |r.value.1| <= |tokens|
    decreases |tokens|, 1, count
  {
    if count == 0 then Some(([], tokens))
    else
      match ParseNode(tokens)
      case None => None
      case Some((child, rest)) =>
        match ParseChildren(rest, count - 1)
        case None => None
        case Some((siblings, rest')) => Some(([child] + siblings, rest'))
  }

  // ---------------------------------------------------------------------
  // The encoding the grammar reads
  // ---------------------------------------------------------------------

  /** Every node of the tree has a header that fits in 16 bits. */
  predicate Encodable(n: Node)
    decreases n
  {
    |n.children| < 0x1_0000 && |n.metadata| < 0x1_0000
    && forall i :: 0 <= i < |n.children| ==> Encodable(n.children[i])
  }

  /** The tokens of a node: header, children, metadata. */
  function Encode(n: Node): seq<U16>
    requires Encodable(n)
    decreases n
  {
    [|n.children|, |n.metadata|] + EncodeAll(n.children) + n.metadata
  }

  /** The tokens of a sequence of nodes, one after another. */
  function EncodeAll(nodes: seq<Node>): seq<U16>
    requires forall i :: 0 <= i < |nodes| ==> Encodable(nodes[i])
    decreases nodes
  {
    if |nodes| == 0 then []
    else Encode(nodes[0]) + EncodeAll(nodes[1..])
  }

  /** Reading the encoding of a node gives the node back, whatever follows it. */
  lemma {:induction false} ParseEncode(n: Node, rest: seq<U16>)
    requires Encodable(n)
    ensures ParseNode(Encode(n) + rest) == Some((n, rest))
    decreases n, 1
  {
    var tokens := Encode(n) + rest;
    var body := EncodeAll(n.children) + (n.metadata + rest);
    assert tokens == [|n.children|, |n.metadata|] + body by {
      AppendAssoc([|n.children|, |n.metadata|] + EncodeAll(n.children), n.metadata, rest);
      AppendAssoc([|n.children|, |n.metadata|], EncodeAll(n.children), n.metadata + rest);
    }
    assert tokens[2..] == body;
    ParseEncodeAll(n.children, n.metadata + rest);
    assert (n.metadata + rest)[..|n.metadata|] == n.metadata;
    assert (n.metadata + rest)[|n.metadata|..] == rest;
  }

  /** Reading the encodings of `nodes` as `|nodes|` children gives them back. */
  lemma {:induction false} ParseEncodeAll(nodes: seq<Node>, rest: seq<U16>)
    requires forall i :: 0 <= i < |nodes| ==> Encodable(nodes[i])
    ensures ParseChildren(EncodeAll(nodes) + rest, |nodes|) == Some((nodes, rest))
    decreases nodes, 0
  {
    if |nodes| == 0 {
      assert EncodeAll(nodes) + rest == rest;
    } else {
      var tail := EncodeAll(nodes[1..]) + rest;
      AppendAssoc(Encode(nodes[0]), EncodeAll(nodes[1..]), rest);
      assert EncodeAll(nodes) + rest == Encode(nodes[0]) + tail;
      ParseEncode(nodes[0], tail);
      ParseEncodeAll(nodes[1..], rest);
      assert ParseNode(EncodeAll(nodes) + rest) == Some((nodes[0], tail));
      assert [nodes[0]] + nodes[1..] == nodes;
    }
  }

  /** A successful read consumes exactly the encoding of the node it returns. */
  lemma {:induction false} ParseIsEncoding(tokens: seq<U16>)
    requires ParseNode(tokens).Some?
    ensures var (n, rest) := ParseNode(tokens).value;
            Encodable(n) && tokens == Encode(n) + rest
    decreases |tokens|, 0
  {
    var (n, rest) := ParseNode(tokens).value;
    var (children, afterChildren) := ParseChildren(tokens[2..], tokens[0]).value;
    ParseChildrenIsEncoding(tokens[2..], tokens[0]);
    assert children == n.children;
    assert afterChildren == n.metadata + rest;
    assert tokens == [tokens[0], tokens[1]] + tokens[2..];
    AppendAssoc([|n.children|, |n.metadata|], EncodeAll(n.children), n.metadata + rest);
    AppendAssoc([|n.children|, |n.metadata|] + EncodeAll(n.children), n.metadata, rest);
  }

  /** A successful read of `count` children consumes exactly their encodings. */
  lemma {:induction false} ParseChildrenIsEncoding(tokens: seq<U16>, count: nat)
    requires ParseChildren(tokens, count).Some?
    ensures var (nodes, rest) := ParseChildren(tokens, count).value;
            (forall i :: 0 <= i < |nodes| ==> Encodable(nodes[i])) && tokens == EncodeAll(nodes) + rest
    decreases |tokens|, 1, count
  {
    if count > 0 {
      var (child, afterChild) := ParseNode(tokens).value;
      ParseIsEncoding(tokens);
      var (siblings, rest) := ParseChildren(afterChild, count - 1).value;
      ParseChildrenIsEncoding(afterChild, count - 1);
      var nodes := [child] + siblings;
      assert nodes[0] == child && nodes[1..] == siblings;
      AppendAssoc(Encode(child), EncodeAll(siblings), rest);
    }
  }

  // ---------------------------------------------------------------------
  // The checksum
  // ---------------------------------------------------------------------

  function Sum(values: seq<U16>): nat
  {
    if |values| == 0 then 0 else values[0] + Sum(values[1..])
  }

  /** The metadata of every node of the tree, the node's own first, then each child's in turn. */
  function AllMetadata(n: Node): seq<U16>
    decreases n
  {
    n.metadata + AllChildrenMetadata(n.children)
  }

  function AllChildrenMetadata(nodes: seq<Node>): seq<U16>
    decreases nodes
  {
    if |nodes| == 0 then [] else AllMetadata(nodes[0]) + AllChildrenMetadata(nodes[1..])
  }

  lemma {:induction false} SumAppend(a: seq<U16>, b: seq<U16>)
    ensures Sum(a + b) == Sum(a) + Sum(b)
  {
    if |a| == 0 {
      assert a + b == b;
    } else {
      SumAppend(a[1..], b);
      assert (a + b)[1..] == a[1..] + b;
    }
  }

  /**
   * The node's own metadata sum plus the sums of its children: the sum of
   * the metadata of every node of the tree.
   */
  function SumMetadata(n: Node): (r: nat)
    ensures r == Sum(AllMetadata(n))
    decreases n, 1
  {
    SumAppend(n.metadata, AllChildrenMetadata(n.children));
    Sum(n.metadata) + SumChildren(n.children)
  }

  /** The children's sums, added up: the sum of the metadata of every node under them. */
  function SumChildren(nodes: seq<Node>): (r: nat)
    ensures r == Sum(AllChildrenMetadata(nodes))
    decreases nodes, 0
  {
    if |nodes| == 0 then 0
    else
      SumAppend(AllMetadata(nodes[0]), AllChildrenMetadata(nodes[1..]));
      SumMetadata(nodes[0]) + SumChildren(nodes[1..])
  }

  // ---------------------------------------------------------------------
  // Examples
  // ---------------------------------------------------------------------

  /** "0 3 10 11 12" is a leaf with metadata 10, 11, 12. */
  lemma LeafExample(tokens: seq<U16>)
    requires tokens == [0, 3, 10, 11, 12]
    ensures ParseNode(tokens) == Some((Node([10, 11, 12], []), []))
  {
    var leaf := Node([10, 11, 12], []);
    ParseEncode(leaf, []);
    assert Encode(leaf) + [] == tokens;
  }

  /** "1 1 0 1 99 2" is a root with metadata 2 over one leaf with metadata 99; the checksum is 101. */
  lemma NestedExample(tokens: seq<U16>)
    requires tokens == [1, 1, 0, 1, 99, 2]
    ensures ParseNode(tokens) == Some((Node([2], [Node([99], [])]), []))
    ensures SumMetadata(Node([2], [Node([99], [])])) == 101
  {
    var leaf := Node([99], []);
    var root := Node([2], [leaf]);
    assert Encodable(root) by {
      assert Encodable(root.children[0]);
    }
    ParseEncode(root, []);
    assert EncodeAll([leaf]) == Encode(leaf);
    assert Encode(root) + [] == tokens;
    assert [leaf][1..] == [];
    assert SumChildren([leaf]) == 99;
  }
}
