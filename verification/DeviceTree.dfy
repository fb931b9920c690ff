/** Device trees, their preorder listing, and pruning by a mask over that listing. */
module DeviceTree {
  import opened Basics

  /** A property with its raw value. */
  datatype Prop = Prop(name: string, value: seq<Byte>)

  /** What a node carries. `reg` is the first address of its decoded `reg` property, if any. */
  datatype NodeData = NodeData(name: string, reg: Option<nat>, props: seq<Prop>)

  /** One entry of `Fdt::all_nodes()`: the tree shape survives only as a level (the root is at 1). */
  datatype FdtNode = FdtNode(data: NodeData, level: nat)

  /** Ordered trees, as a first child and a next sibling. */
  datatype Forest = Nil | Node(data: NodeData, children: Forest, siblings: Forest)

  function Size(f: Forest): nat {
    match f
    case Nil => 0
    case Node(_, c, s) => 1 + Size(c) + Size(s)
  }

  /** The preorder listing of `f`, its top nodes being at `level`. */
  function Flatten(f: Forest, level: nat): (nodes: seq<FdtNode>)
    ensures |nodes| == Size(f)
    ensures forall i :: 0 <= i < |nodes| ==> nodes[i].level >= level
  {
    match f
    case Nil => []
    case Node(d, c, s) => [FdtNode(d, level)] + Flatten(c, level + 1) + Flatten(s, level)
  }

  lemma {:induction false} FlattenSingle(d: NodeData, c: Forest, level: nat)
    ensures Flatten(Node(d, c, Nil), level) == [FdtNode(d, level)] + Flatten(c, level + 1)
  {
    assert Flatten(Nil, level) == [];
  }

  /** A prefix of a listing that ends in the first node's subtree, or among its siblings. */
  lemma {:induction false} FlattenTake(f: Forest, level: nat, i: nat)
    requires i < Size(f)
    ensures var n := Size(f.children);
      Flatten(f, level)[..i + 1] ==
      if i <= n then [FdtNode(f.data, level)] + Flatten(f.children, level + 1)[..i]
      else [FdtNode(f.data, level)] + Flatten(f.children, level + 1) + Flatten(f.siblings, level)[..i - n]
  {
    var head, c, s := [FdtNode(f.data, level)], Flatten(f.children, level + 1), Flatten(f.siblings, level);
    var n := |c|;
    if i <= n {
      TakeOf(head + c, s, i + 1);
      TakeOf(head, c, i + 1);
    } else {
      TakeOf(head + c, s, i + 1);
    }
  }

  lemma {:induction false} TakeOf<T>(a: seq<T>, b: seq<T>, k: nat)
    requires k <= |a| + |b|
    ensures (a + b)[..k] == if k <= |a| then a[..k] else a + b[..k - |a|]
  {
  }

  function Append(f: Forest, g: Forest): Forest {
    match f
    case Nil => g
    case Node(d, c, s) => Node(d, c, Append(s, g))
  }

  lemma {:induction false} FlattenAppend(f: Forest, g: Forest, level: nat)
    ensures Flatten(Append(f, g), level) == Flatten(f, level) + Flatten(g, level)
  {
    match f
    case Nil =>
    case Node(d, c, s) => FlattenAppend(s, g, level);
  }

  lemma {:induction false} SizeAppend(f: Forest, g: Forest)
    ensures Size(Append(f, g)) == Size(f) + Size(g)
  {
    if f.Node? {
      SizeAppend(f.siblings, g);
    }
  }

  /** Preorder positions: `i` is a strict ancestor of `j`. */
  predicate IsAncestor(f: Forest, i: nat, j: nat)
    ensures IsAncestor(f, i, j) ==> i < j < Size(f)
  {
    f.Node? &&
    var n := Size(f.children);
    if i == 0 then 1 <= j <= n
    else if i <= n then 1 <= j <= n && IsAncestor(f.children, i - 1, j - 1)
    else j > n && IsAncestor(f.siblings, i - 1 - n, j - 1 - n)
  }

  /** The part of a mask for the children, and for the siblings, of the first node. */
  function ChildMask(f: Forest, keep: seq<bool>): (m: seq<bool>)
    requires f.Node? && |keep| == Size(f)
    ensures |m| == Size(f.children)
  {
    keep[1..1 + Size(f.children)]
  }

  function SiblingMask(f: Forest, keep: seq<bool>): (m: seq<bool>)
    requires f.Node? && |keep| == Size(f)
    ensures |m| == Size(f.siblings)
  {
    keep[1 + Size(f.children)..]
  }

  /** A mask that keeps every strict ancestor of what it keeps. */
  ghost predicate Closed(f: Forest, keep: seq<bool>)
    requires |keep| == Size(f)
  {
    forall i: nat, j: nat :: IsAncestor(f, i, j) && keep[j] ==> keep[i]
  }

  /** The tree that is left when every node the mask drops goes away with all that is below it. */
  function Prune(f: Forest, keep: seq<bool>): Forest
    requires |keep| == Size(f)
  {
    match f
    case Nil => Nil
    case Node(d, c, s) =>
      var rest := Prune(s, SiblingMask(f, keep));
      if keep[0] then Node(d, Prune(c, ChildMask(f, keep)), rest) else rest
  }

  /** The listed nodes that the mask keeps. */
  function Select<T>(nodes: seq<T>, keep: seq<bool>): seq<T>
    requires |nodes| == |keep|
  {
    if nodes == [] then []
    else (if keep[0] then [nodes[0]] else []) + Select(nodes[1..], keep[1..])
  }

  function Kept(keep: seq<bool>): nat {
    if keep == [] then 0 else (if keep[0] then 1 else 0) + Kept(keep[1..])
  }

  lemma {:induction false} SelectAppend<T>(a: seq<T>, b: seq<T>, ka: seq<bool>, kb: seq<bool>)
    requires |a| == |ka| && |b| == |kb|
    ensures Select(a + b, ka + kb) == Select(a, ka) + Select(b, kb)
  {
    if a == [] {
      assert a + b == b && ka + kb == kb;
    } else {
      SelectAppend(a[1..], b, ka[1..], kb);
      ConsTail(a, b);
      ConsTail(ka, kb);
      Assoc(if ka[0] then [a[0]] else [], Select(a[1..], ka[1..]), Select(b, kb));
    }
  }

  lemma {:induction false} SelectCount<T>(nodes: seq<T>, keep: seq<bool>)
    requires |nodes| == |keep|
    ensures |Select(nodes, keep)| == Kept(keep)
  {
    if nodes != [] {
      SelectCount(nodes[1..], keep[1..]);
    }
  }

  lemma {:induction false} SelectNone<T>(nodes: seq<T>, keep: seq<bool>)
    requires |nodes| == |keep| && forall k :: 0 <= k < |keep| ==> !keep[k]
    ensures Select(nodes, keep) == []
  {
    if nodes != [] {
      SelectNone(nodes[1..], keep[1..]);
    }
  }

  lemma {:induction false} SelectIn<T>(nodes: seq<T>, keep: seq<bool>, k: nat)
    requires |nodes| == |keep| && k < |Select(nodes, keep)|
    ensures Select(nodes, keep)[k] in nodes
  {
    var head := if keep[0] then 1 else 0;
    if k >= head {
      SelectIn(nodes[1..], keep[1..], k - head);
    }
  }

  lemma {:induction false} PruneNone(f: Forest, keep: seq<bool>)
    requires |keep| == Size(f) && forall k :: 0 <= k < |keep| ==> !keep[k]
    ensures Prune(f, keep) == Nil
  {
    if f.Node? {
      PruneNone(f.siblings, SiblingMask(f, keep));
    }
  }

  /** Ancestry below and beside a first node, seen from the whole forest. */
  lemma {:induction false} AncestorShift(f: Forest, i: nat, j: nat)
    requires f.Node?
    ensures i < Size(f.children) ==> IsAncestor(f, 0, i + 1)
    ensures IsAncestor(f.children, i, j) ==> IsAncestor(f, i + 1, j + 1)
    ensures IsAncestor(f.siblings, i, j) ==> IsAncestor(f, i + 1 + Size(f.children), j + 1 + Size(f.children))
  {
  }

  lemma {:induction false} ClosedDown(f: Forest, keep: seq<bool>)
    requires f.Node? && |keep| == Size(f) && Closed(f, keep)
    ensures keep[0] || forall k :: 0 <= k < Size(f.children) ==> !ChildMask(f, keep)[k]
    ensures Closed(f.children, ChildMask(f, keep))
    ensures Closed(f.siblings, SiblingMask(f, keep))
  {
    forall k | 0 <= k < Size(f.children) ensures keep[0] || !ChildMask(f, keep)[k] {
      AncestorShift(f, k, k);
    }
    forall i: nat, j: nat | IsAncestor(f.children, i, j) && ChildMask(f, keep)[j]
      ensures ChildMask(f, keep)[i]
    {
      AncestorShift(f, i, j);
    }
    forall i: nat, j: nat | IsAncestor(f.siblings, i, j) && SiblingMask(f, keep)[j]
      ensures SiblingMask(f, keep)[i]
    {
      AncestorShift(f, i, j);
    }
  }

  /** A pair of nodes, the one above the other, has a first node above, or lies below it, or beside it. */
  lemma {:induction false} ClosedPair(f: Forest, keep: seq<bool>, i: nat, j: nat)
    requires f.Node? && |keep| == Size(f) && IsAncestor(f, i, j) && keep[j]
    requires keep[0] || forall k :: 0 <= k < Size(f.children) ==> !ChildMask(f, keep)[k]
    requires Closed(f.children, ChildMask(f, keep)) && Closed(f.siblings, SiblingMask(f, keep))
    ensures keep[i]
  {
    var n := Size(f.children);
    if 0 < i <= n {
      assert IsAncestor(f.children, i - 1, j - 1) && ChildMask(f, keep)[j - 1];
    } else if i > n {
      assert IsAncestor(f.siblings, i - 1 - n, j - 1 - n) && SiblingMask(f, keep)[j - 1 - n];
    } else {
      assert ChildMask(f, keep)[j - 1];
    }
  }

  /** Closedness, one node at a time. */
  lemma {:induction false} ClosedParts(f: Forest, keep: seq<bool>)
    requires f.Node? && |keep| == Size(f)
    ensures Closed(f, keep) <==>
      && (keep[0] || forall k :: 0 <= k < Size(f.children) ==> !ChildMask(f, keep)[k])
      && Closed(f.children, ChildMask(f, keep))
      && Closed(f.siblings, SiblingMask(f, keep))
  {
    if Closed(f, keep) {
      ClosedDown(f, keep);
    } else if
      && (keep[0] || forall k :: 0 <= k < Size(f.children) ==> !ChildMask(f, keep)[k])
      && Closed(f.children, ChildMask(f, keep))
      && Closed(f.siblings, SiblingMask(f, keep))
    {
      var i: nat, j: nat :| IsAncestor(f, i, j) && keep[j] && !keep[i];
      ClosedPair(f, keep, i, j);
    }
  }

  lemma {:induction false} FlattenParts(f: Forest, keep: seq<bool>, level: nat)
    requires f.Node? && |keep| == Size(f)
    ensures Select(Flatten(f, level), keep) ==
      (if keep[0] then [FdtNode(f.data, level)] else [])
      + Select(Flatten(f.children, level + 1), ChildMask(f, keep))
      + Select(Flatten(f.siblings, level), SiblingMask(f, keep))
  {
    var head, c, s := [FdtNode(f.data, level)], Flatten(f.children, level + 1), Flatten(f.siblings, level);
    var cm, sm := ChildMask(f, keep), SiblingMask(f, keep);
    Assoc(head, c, s);
    ConsTail(head, c + s);
    EmptyAppend(c + s);
    assert keep[1..] == cm + sm;
    SelectAppend(c, s, cm, sm);
    Assoc(if keep[0] then head else [], Select(c, cm), Select(s, sm));
  }

  /** For a closed mask, filtering the flat listing lists the pruned tree. */
  lemma {:induction false} SelectIsPrune(f: Forest, keep: seq<bool>, level: nat)
    requires |keep| == Size(f) && Closed(f, keep)
    ensures Select(Flatten(f, level), keep) == Flatten(Prune(f, keep), level)
  {
    if f.Node? {
      var cm := ChildMask(f, keep);
      ClosedParts(f, keep);
      FlattenParts(f, keep, level);
      SelectIsPrune(f.children, cm, level + 1);
      SelectIsPrune(f.siblings, SiblingMask(f, keep), level);
      if !keep[0] {
        SelectNone(Flatten(f.children, level + 1), cm);
      }
    }
  }

  lemma {:induction false} KeptAppend(a: seq<bool>, b: seq<bool>)
    ensures Kept(a + b) == Kept(a) + Kept(b)
  {
    if a == [] {
      assert a + b == b;
    } else {
      KeptAppend(a[1..], b);
      assert (a + b)[1..] == a[1..] + b;
    }
  }

  lemma {:induction false} KeptNone(keep: seq<bool>)
    ensures Kept(keep) == 0 <==> forall k :: 0 <= k < |keep| ==> !keep[k]
  {
    if keep != [] {
      KeptNone(keep[1..]);
      assert forall k :: 0 <= k < |keep[1..]| ==> keep[1..][k] == keep[k + 1];
    }
  }

  /** Pruning keeps every kept node exactly when the mask is closed. */
  lemma {:induction false} PruneSize(f: Forest, keep: seq<bool>)
    requires |keep| == Size(f)
    ensures Size(Prune(f, keep)) <= Kept(keep)
    ensures Size(Prune(f, keep)) == Kept(keep) <==> Closed(f, keep)
  {
    if f.Node? {
      var cm, sm := ChildMask(f, keep), SiblingMask(f, keep);
      ClosedParts(f, keep);
      PruneSize(f.children, cm);
      PruneSize(f.siblings, sm);
      assert keep[1..] == cm + sm;
      KeptAppend(cm, sm);
      KeptNone(cm);
    }
  }

  /** The filtered listing is the listing of the pruned tree if and only if the mask is closed. */
  lemma {:induction false} SelectIsPruneIffClosed(f: Forest, keep: seq<bool>, level: nat)
    requires |keep| == Size(f)
    ensures Closed(f, keep) <==> Select(Flatten(f, level), keep) == Flatten(Prune(f, keep), level)
  {
    if Closed(f, keep) {
      SelectIsPrune(f, keep, level);
    } else {
      PruneSize(f, keep);
      SelectCount(Flatten(f, level), keep);
    }
  }
}
