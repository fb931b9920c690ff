/** Node listings and trees: which listings are listings of a tree, of which one, and what is written for it. */
module Listings {
  import opened Basics
  import opened DeviceTree
  import opened FdtStream

  /** A listing of top nodes at `level` and whatever is below them, without a jump in levels. */
  predicate Listable(nodes: seq<FdtNode>, level: nat) {
    level >= 1 && NoJump(level - 1, nodes) && forall i :: 0 <= i < |nodes| ==> nodes[i].level >= level
  }

  /** How many nodes at the start are at or below `level`. */
  function Below(nodes: seq<FdtNode>, level: nat): (n: nat)
    ensures n <= |nodes| && (n < |nodes| ==> nodes[n].level < level)
    ensures forall i :: 0 <= i < n ==> nodes[i].level >= level
  {
    if nodes == [] || nodes[0].level < level then 0 else 1 + Below(nodes[1..], level)
  }

  lemma {:induction false} NoJumpParts(last: nat, nodes: seq<FdtNode>, n: nat)
    requires n <= |nodes| && NoJump(last, nodes)
    ensures NoJump(last, nodes[..n])
    ensures n < |nodes| ==> NoJump(nodes[n].level, nodes[n..][1..])
    decreases |nodes|
  {
    if n > 0 {
      NoJumpParts(nodes[0].level, nodes[1..], n - 1);
      assert nodes[..n][1..] == nodes[1..][..n - 1];
      assert nodes[1..][n - 1..] == nodes[n..];
    } else {
      assert nodes[0..] == nodes;
    }
  }

  /** The rest of a listing splits into what is below its first node and what is beside it. */
  lemma {:induction false} ListableParts(nodes: seq<FdtNode>, level: nat)
    requires Listable(nodes, level) && nodes != []
    ensures var rest := nodes[1..];
      var n := Below(rest, level + 1);
      nodes[0].level == level && Listable(rest[..n], level + 1) && Listable(rest[n..], level)
  {
    var rest := nodes[1..];
    NoJumpParts(level, rest, Below(rest, level + 1));
  }

  /** The forest that a listing lists. */
  function Build(nodes: seq<FdtNode>, level: nat): Forest
    requires Listable(nodes, level)
    decreases |nodes|
  {
    if nodes == [] then Nil
    else
      ListableParts(nodes, level);
      var rest := nodes[1..];
      var n := Below(rest, level + 1);
      Node(nodes[0].data, Build(rest[..n], level + 1), Build(rest[n..], level))
  }

  lemma {:induction false} Resplit(nodes: seq<FdtNode>, n: nat)
    requires nodes != [] && n < |nodes|
    ensures nodes == [nodes[0]] + nodes[1..][..n] + nodes[1..][n..]
  {
  }

  /** A listing is its first node, what is below that and what is beside it. */
  lemma {:induction false} BuildIs(nodes: seq<FdtNode>, level: nat) returns (c: seq<FdtNode>, s: seq<FdtNode>)
    requires Listable(nodes, level) && nodes != []
    ensures |c| < |nodes| && |s| < |nodes| && nodes == [FdtNode(nodes[0].data, level)] + c + s
    ensures Listable(c, level + 1) && Listable(s, level)
    ensures Build(nodes, level) == Node(nodes[0].data, Build(c, level + 1), Build(s, level))
  {
    ListableParts(nodes, level);
    var n := Below(nodes[1..], level + 1);
    c, s := nodes[1..][..n], nodes[1..][n..];
    Resplit(nodes, n);
  }

  lemma {:induction false} FlattenNode(d: NodeData, level: nat, c: Forest, s: Forest, nodes: seq<FdtNode>)
    requires nodes == [FdtNode(d, level)] + Flatten(c, level + 1) + Flatten(s, level)
    ensures Flatten(Node(d, c, s), level) == nodes
  {
  }

  /** Listing undoes building. */
  lemma {:induction false} BuildLists(nodes: seq<FdtNode>, level: nat, f: Forest)
    requires Listable(nodes, level) && f == Build(nodes, level)
    ensures Flatten(f, level) == nodes
    decreases |nodes|
  {
    if nodes != [] {
      var c, s := BuildIs(nodes, level);
      BuildLists(c, level + 1, f.children);
      BuildLists(s, level, f.siblings);
      FlattenNode(nodes[0].data, level, f.children, f.siblings, nodes);
    }
  }

  lemma {:induction false} NoJumpFrom(low: nat, last: nat, a: seq<FdtNode>, b: seq<FdtNode>)
    requires low <= last && NoJump(last, a) && (b != [] ==> b[0].level <= low + 1 && NoJump(b[0].level, b[1..]))
    requires forall i :: 0 <= i < |a| ==> a[i].level >= low
    ensures NoJump(last, a + b)
    decreases |a|
  {
    if a == [] {
      EmptyAppend(b);
    } else {
      ConsTail(a, b);
      NoJumpFrom(low, a[0].level, a[1..], b);
    }
  }

  /** A node, what is below it and what is beside it are listed without jumps. */
  lemma {:induction false} ListableNode(node: FdtNode, c: seq<FdtNode>, s: seq<FdtNode>, level: nat)
    requires node.level == level && Listable(c, level + 1) && Listable(s, level)
    ensures Listable([node] + c + s, level)
  {
    NoJumpFrom(level - 1, level, c, s);
    NoJumpFirst(level - 1, node, c + s);
    Assoc([node], c, s);
  }

  lemma {:induction false} NoJumpFirst(last: nat, node: FdtNode, rest: seq<FdtNode>)
    requires node.level <= last + 1 && NoJump(node.level, rest)
    ensures NoJump(last, [node] + rest)
  {
    ConsTail([node], rest);
    EmptyAppend(rest);
  }

  /** Trees are listed without jumps. */
  lemma {:induction false} FlattenListable(f: Forest, level: nat)
    requires level >= 1
    ensures Listable(Flatten(f, level), level)
    decreases f
  {
    if f.Node? {
      FlattenListable(f.children, level + 1);
      FlattenListable(f.siblings, level);
      ListableNode(FdtNode(f.data, level), Flatten(f.children, level + 1), Flatten(f.siblings, level), level);
    }
  }

  lemma {:induction false} BelowPrefix(a: seq<FdtNode>, b: seq<FdtNode>, level: nat)
    requires (forall i :: 0 <= i < |a| ==> a[i].level >= level) && (b != [] ==> b[0].level < level)
    ensures Below(a + b, level) == |a|
  {
    if a == [] {
      EmptyAppend(b);
    } else {
      ConsTail(a, b);
      BelowPrefix(a[1..], b, level);
    }
  }

  /** A first node, what is below it and what is beside it are built one by one. */
  lemma {:induction false} BuildNode(node: FdtNode, c: seq<FdtNode>, s: seq<FdtNode>, level: nat)
    requires node.level == level && Listable(c, level + 1) && Listable(s, level)
    requires Listable([node] + (c + s), level)
    ensures Build([node] + (c + s), level) == Node(node.data, Build(c, level + 1), Build(s, level))
  {
    SplitBack(node, c, s, level);
    var nodes := [node] + (c + s);
    ListableParts(nodes, level);
    assert nodes[0] == node;
  }

  lemma {:induction false} SplitBack(node: FdtNode, c: seq<FdtNode>, s: seq<FdtNode>, level: nat)
    requires (forall i :: 0 <= i < |c| ==> c[i].level > level) && (s != [] ==> s[0].level <= level)
    ensures var rest := ([node] + (c + s))[1..];
      Below(rest, level + 1) == |c| && rest[..|c|] == c && rest[|c|..] == s
  {
    ConsTail([node], c + s);
    EmptyAppend(c + s);
    BelowPrefix(c, s, level + 1);
    Halves(c, s);
  }

  lemma {:induction false} Halves(a: seq<FdtNode>, b: seq<FdtNode>)
    ensures (a + b)[..|a|] == a && (a + b)[|a|..] == b
  {
  }

  /** Building undoes listing, so a listing is the listing of one forest only. */
  lemma {:induction false} BuildIsUnique(f: Forest, level: nat)
    requires level >= 1
    ensures Listable(Flatten(f, level), level) && Build(Flatten(f, level), level) == f
    decreases f
  {
    FlattenListable(f, level);
    if f.Node? {
      var node, c, s := FdtNode(f.data, level), Flatten(f.children, level + 1), Flatten(f.siblings, level);
      BuildIsUnique(f.children, level + 1);
      BuildIsUnique(f.siblings, level);
      Assoc([node], c, s);
      BuildNode(node, c, s, level);
    }
  }

  lemma {:induction false} BuiltNoRoot(nodes: seq<FdtNode>, level: nat)
    requires Listable(nodes, level) && forall i :: 0 <= i < |nodes| ==> nodes[i].data.name != ROOT
    ensures NoRoot(Build(nodes, level))
    decreases |nodes|
  {
    if nodes != [] {
      ListableParts(nodes, level);
      var rest := nodes[1..];
      var n := Below(rest, level + 1);
      BuiltNoRoot(rest[..n], level + 1);
      BuiltNoRoot(rest[n..], level);
    }
  }

  /**
   * For any nodes below a root, whatever tree they were taken from: if a level is jumped over the closing
   * assertion fails, and otherwise the stream is that of the one tree that these nodes list.
   */
  lemma {:induction false} StreamOfListing(root: FdtNode, nodes: seq<FdtNode>)
    requires root.data.name == ROOT && root.level == 1
    requires forall i :: 0 <= i < |nodes| ==> nodes[i].level >= 2 && nodes[i].data.name != ROOT
    ensures Finish(Emit(START, [root] + nodes)) ==
      if NoJump(1, nodes) then Some(Serialise(Node(root.data, Build(nodes, 2), Nil))) else None
  {
    FinishIffNoJump(root, nodes);
    if NoJump(1, nodes) {
      var t := Node(root.data, Build(nodes, 2), Nil);
      BuildLists(nodes, 2, t.children);
      BuiltNoRoot(nodes, 2);
      FlattenSingle(root.data, t.children, 1);
      EmitTree(t);
    }
  }

  /** All nodes after `i`, up to `j`, are at deeper levels. */
  predicate Deeper(nodes: seq<FdtNode>, i: nat, j: nat)
    requires i <= j < |nodes|
    decreases j
  {
    i == j || (nodes[j].level > nodes[i].level && Deeper(nodes, i, j - 1))
  }

  lemma {:induction false} DeeperIff(nodes: seq<FdtNode>, i: nat, j: nat)
    requires i <= j < |nodes|
    ensures Deeper(nodes, i, j) <==> forall k :: i < k <= j ==> nodes[k].level > nodes[i].level
    decreases j
  {
    if i < j {
      DeeperIff(nodes, i, j - 1);
    }
  }

  lemma {:induction false} DeeperShift(nodes: seq<FdtNode>, part: seq<FdtNode>, off: nat, i: nat, j: nat)
    requires off <= i <= j < off + |part| <= |nodes| && nodes[off..off + |part|] == part
    ensures Deeper(nodes, i, j) <==> Deeper(part, i - off, j - off)
    decreases j
  {
    assert nodes[i] == nodes[off..off + |part|][i - off] && nodes[j] == nodes[off..off + |part|][j - off];
    if i < j {
      DeeperShift(nodes, part, off, i, j - 1);
    }
  }

  /** Nothing beside a node is at a deeper level than the node or what is below it. */
  lemma {:induction false} NotAcross(f: Forest, level: nat, i: nat, j: nat)
    requires f.Node? && i <= Size(f.children) < j < Size(f)
    ensures !Deeper(Flatten(f, level), i, j)
  {
    var head, c, s := [FdtNode(f.data, level)], Flatten(f.children, level + 1), Flatten(f.siblings, level);
    var nodes, n := head + c + s, Size(f.children);
    assert nodes[n + 1] == s[0] && s[0].level == level;
    assert nodes[i].level >= level;
    DeeperIff(nodes, i, j);
  }

  lemma {:induction false} ChildSlice(f: Forest, level: nat, c: seq<FdtNode>)
    requires f.Node? && c == Flatten(f.children, level + 1)
    ensures 1 + |c| <= Size(f) && Flatten(f, level)[1..1 + |c|] == c
  {
    SliceThree([FdtNode(f.data, level)], c, Flatten(f.siblings, level));
  }

  lemma {:induction false} SiblingSlice(f: Forest, level: nat, n: nat, s: seq<FdtNode>)
    requires f.Node? && n == 1 + Size(f.children) && s == Flatten(f.siblings, level)
    ensures n + |s| == Size(f) && Flatten(f, level)[n..n + |s|] == s
  {
    SliceThree([FdtNode(f.data, level)], Flatten(f.children, level + 1), s);
  }

  lemma {:induction false} SliceThree(a: seq<FdtNode>, b: seq<FdtNode>, c: seq<FdtNode>)
    ensures (a + b + c)[|a|..|a| + |b|] == b && (a + b + c)[|a| + |b|..|a| + |b| + |c|] == c
  {
  }

  lemma {:induction false} DeeperFromTop(f: Forest, level: nat, j: nat)
    requires f.Node? && j <= Size(f.children)
    ensures Deeper(Flatten(f, level), 0, j)
  {
    var head, c, s := [FdtNode(f.data, level)], Flatten(f.children, level + 1), Flatten(f.siblings, level);
    var nodes := head + c + s;
    assert forall k :: 0 < k <= |c| ==> nodes[k] == c[k - 1];
    DeeperIff(nodes, 0, j);
  }

  /** Position by position, ancestry and levels say the same. */
  ghost predicate LevelsTell(f: Forest, level: nat, i: nat, j: nat)
    requires i < j < Size(f)
  {
    IsAncestor(f, i, j) <==> Deeper(Flatten(f, level), i, j)
  }

  lemma {:induction false} LevelsTellSiblings(f: Forest, level: nat, n: nat, i: nat, j: nat)
    requires f.Node? && n == 1 + Size(f.children) && n <= i < j < Size(f)
    requires LevelsTell(f.siblings, level, i - n, j - n)
    ensures LevelsTell(f, level, i, j)
  {
    DeeperInSiblings(f, level, n, Flatten(f, level), Flatten(f.siblings, level), i, j);
    AncestorInSiblings(f, n, i, j);
  }

  lemma {:induction false} DeeperInSiblings(f: Forest, level: nat, n: nat, nodes: seq<FdtNode>, s: seq<FdtNode>,
        i: nat, j: nat)
    requires f.Node? && n == 1 + Size(f.children) && n <= i <= j < Size(f)
    requires nodes == Flatten(f, level) && s == Flatten(f.siblings, level)
    ensures Deeper(nodes, i, j) <==> Deeper(s, i - n, j - n)
  {
    SiblingSlice(f, level, n, s);
    DeeperShift(nodes, s, n, i, j);
  }

  lemma {:induction false} AncestorInSiblings(f: Forest, n: nat, i: nat, j: nat)
    requires f.Node? && n == 1 + Size(f.children) && n <= i < j
    ensures IsAncestor(f, i, j) <==> IsAncestor(f.siblings, i - n, j - n)
  {
  }

  lemma {:induction false} LevelsTellChildren(f: Forest, level: nat, i: nat, j: nat)
    requires f.Node? && 1 <= i < j <= Size(f.children) && LevelsTell(f.children, level + 1, i - 1, j - 1)
    ensures LevelsTell(f, level, i, j)
  {
    DeeperInChildren(f, level, Flatten(f, level), Flatten(f.children, level + 1), i, j);
    assert IsAncestor(f, i, j) == IsAncestor(f.children, i - 1, j - 1);
  }

  lemma {:induction false} DeeperInChildren(f: Forest, level: nat, nodes: seq<FdtNode>, c: seq<FdtNode>, i: nat, j: nat)
    requires f.Node? && nodes == Flatten(f, level) && c == Flatten(f.children, level + 1) && 1 <= i <= j <= |c|
    ensures Deeper(nodes, i, j) <==> Deeper(c, i - 1, j - 1)
  {
    ChildSlice(f, level, c);
    DeeperShift(nodes, c, 1, i, j);
  }

  lemma {:induction false} LevelsTellAcross(f: Forest, level: nat, i: nat, j: nat)
    requires f.Node? && i <= Size(f.children) < j < Size(f)
    ensures LevelsTell(f, level, i, j)
  {
    NotAcross(f, level, i, j);
  }

  lemma {:induction false} LevelsTellTop(f: Forest, level: nat, j: nat)
    requires f.Node? && 0 < j <= Size(f.children)
    ensures LevelsTell(f, level, 0, j)
  {
    DeeperFromTop(f, level, j);
  }

  /** In a listing, a node lies above another iff all nodes from it up to the other are at deeper levels. */
  lemma {:induction false} AncestorByLevels(f: Forest, level: nat, i: nat, j: nat)
    requires i < j < Size(f)
    ensures LevelsTell(f, level, i, j)
    decreases f
  {
    var n := 1 + Size(f.children);
    if i < n <= j {
      LevelsTellAcross(f, level, i, j);
    } else if i >= n {
      AncestorByLevels(f.siblings, level, i - n, j - n);
      LevelsTellSiblings(f, level, n, i, j);
    } else if i > 0 {
      AncestorByLevels(f.children, level + 1, i - 1, j - 1);
      LevelsTellChildren(f, level, i, j);
    } else {
      LevelsTellTop(f, level, j);
    }
  }

  /** `i` is the last node before `j` one level above it. */
  predicate AdoptedBy(nodes: seq<FdtNode>, i: nat, j: nat) {
    && i < j < |nodes| && nodes[i].level + 1 == nodes[j].level
    && forall k :: i < k < j ==> nodes[k].level >= nodes[j].level
  }

  /**
   * In the tree that is written, a node's parent is the last node written before it one level above. A node
   * whose own parent was skipped is thus given to another one, without the assertion noticing.
   */
  lemma {:induction false} WrittenParent(nodes: seq<FdtNode>, level: nat, i: nat, j: nat)
    requires Listable(nodes, level) && i < j < |nodes|
    ensures IsAncestor(Build(nodes, level), i, j) && nodes[i].level + 1 == nodes[j].level <==> AdoptedBy(nodes, i, j)
  {
    BuildLists(nodes, level, Build(nodes, level));
    AncestorByLevels(Build(nodes, level), level, i, j);
    DeeperIff(nodes, i, j);
  }

}
