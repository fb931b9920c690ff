/** Node paths: rebuilt from levels alone, and compared as strings. */
module NodePaths {
  import opened Basics
  import opened DeviceTree
  import opened FdtStream

  // ---- paths as name sequences

  /** The root-to-node names of the i-th node, in preorder, of a forest hanging below `prefix`. */
  function PathAt(f: Forest, prefix: seq<string>, i: nat): seq<string>
    requires i < Size(f)
  {
    var here, n := prefix + [f.data.name], Size(f.children);
    if i == 0 then here
    else if i <= n then PathAt(f.children, here, i - 1)
    else PathAt(f.siblings, prefix, i - 1 - n)
  }

  /** The names on the path of the i-th node of a tree; the root has the empty path. */
  function TreePath(t: Forest, i: nat): seq<string>
    requires IsTree(t) && i < Size(t)
  {
    assert Size(t.siblings) == 0;
    if i == 0 then [] else PathAt(t.children, [], i - 1)
  }

  /** One step of the path stack of `build_node_path`. */
  function PushName(stack: seq<string>, node: FdtNode): seq<string>
    requires node.level >= 1
  {
    if node.level == 1 then (if node.data.name == ROOT then [] else [node.data.name])
    else stack[..Min(|stack|, node.level - 2)] + [node.data.name]
  }

  predicate Levelled(nodes: seq<FdtNode>) {
    forall i :: 0 <= i < |nodes| ==> nodes[i].level >= 1
  }

  function PathStack(stack: seq<string>, nodes: seq<FdtNode>): seq<string>
    requires Levelled(nodes)
    decreases |nodes|
  {
    if nodes == [] then stack else PathStack(PushName(stack, nodes[0]), nodes[1..])
  }

  lemma {:induction false} PathStackAppend(stack: seq<string>, a: seq<FdtNode>, b: seq<FdtNode>)
    requires Levelled(a) && Levelled(b)
    ensures Levelled(a + b)
    ensures PathStack(stack, a + b) == PathStack(PathStack(stack, a), b)
    decreases |a|
  {
    if a == [] {
      EmptyAppend(b);
    } else {
      PathStackAppend(PushName(stack, a[0]), a[1..], b);
      ConsTail(a, b);
    }
  }

  lemma {:induction false} PathStackCons(stack: seq<string>, node: FdtNode, nodes: seq<FdtNode>)
    requires node.level >= 1 && Levelled(nodes)
    ensures Levelled([node] + nodes)
    ensures PathStack(stack, [node] + nodes) == PathStack(PushName(stack, node), nodes)
  {
    assert ([node] + nodes)[1..] == nodes;
  }

  /** A node one level below the node that `prefix` names replaces everything above `prefix`. */
  lemma {:induction false} PushBelow(stack: seq<string>, prefix: seq<string>, d: NodeData)
    requires prefix <= stack
    ensures PushName(stack, FdtNode(d, |prefix| + 2)) == prefix + [d.name]
  {
    assert stack[..|prefix|] == prefix;
  }

  /** Walking a whole forest leaves the part of the stack that names its parent alone. */
  lemma {:induction false} PathStackKeepsPrefix(stack: seq<string>, f: Forest, prefix: seq<string>)
    requires prefix <= stack
    ensures prefix <= PathStack(stack, Flatten(f, |prefix| + 2))
    decreases f
  {
    if f.Node? {
      var level := |prefix| + 2;
      var node, kids, rest := FdtNode(f.data, level), Flatten(f.children, level + 1), Flatten(f.siblings, level);
      var here := prefix + [f.data.name];
      PushBelow(stack, prefix, f.data);
      PathStackKeepsPrefix(here, f.children, here);
      PathStackKeepsPrefix(PathStack(here, kids), f.siblings, prefix);
      PathStackAppend(stack, [node] + kids, rest);
      PathStackCons(stack, node, kids);
    }
  }

  /** Up to a node among a first node's descendants, the walk is the walk of its children. */
  lemma {:induction false} PathStackInside(stack: seq<string>, f: Forest, prefix: seq<string>, i: nat)
    requires prefix <= stack && f.Node? && i <= Size(f.children)
    ensures PathStack(stack, Flatten(f, |prefix| + 2)[..i + 1]) ==
      PathStack(prefix + [f.data.name], Flatten(f.children, |prefix| + 3)[..i])
  {
    PushBelow(stack, prefix, f.data);
    FlattenTake(f, |prefix| + 2, i);
    PathStackCons(stack, FdtNode(f.data, |prefix| + 2), Flatten(f.children, |prefix| + 3)[..i]);
  }

  /** The stack when the walk has passed a first node and its descendants. */
  function StackPast(f: Forest, prefix: seq<string>): seq<string>
    requires f.Node?
  {
    PathStack(prefix + [f.data.name], Flatten(f.children, |prefix| + 3))
  }

  lemma {:induction false} PathStackPast(stack: seq<string>, f: Forest, prefix: seq<string>, k: nat)
    requires prefix <= stack && f.Node? && k < Size(f.siblings)
    ensures prefix <= StackPast(f, prefix)
    ensures PathStack(stack, Flatten(f, |prefix| + 2)[..Size(f.children) + 2 + k]) ==
      PathStack(StackPast(f, prefix), Flatten(f.siblings, |prefix| + 2)[..k + 1])
  {
    var level, here := |prefix| + 2, prefix + [f.data.name];
    var node, kids := FdtNode(f.data, level), Flatten(f.children, level + 1);
    PushBelow(stack, prefix, f.data);
    FlattenTake(f, level, Size(f.children) + 1 + k);
    PathStackAppend(stack, [node] + kids, Flatten(f.siblings, level)[..k + 1]);
    PathStackCons(stack, node, kids);
    PathStackKeepsPrefix(here, f.children, here);
  }

  /** After the i-th node of a forest the stack is that node's path. */
  lemma {:induction false} PathStackForest(stack: seq<string>, f: Forest, prefix: seq<string>, i: nat)
    requires prefix <= stack && i < Size(f)
    ensures PathStack(stack, Flatten(f, |prefix| + 2)[..i + 1]) == PathAt(f, prefix, i)
    decreases f
  {
    var n := Size(f.children);
    if i <= n {
      PathStackInside(stack, f, prefix, i);
      if i > 0 {
        var here := prefix + [f.data.name];
        PathStackForest(here, f.children, here, i - 1);
      }
    } else {
      PathStackPast(stack, f, prefix, i - 1 - n);
      PathStackForest(StackPast(f, prefix), f.siblings, prefix, i - 1 - n);
    }
  }

  /** The path stack after the first i+1 nodes of a tree's listing is the i-th node's path. */
  lemma {:induction false} PathStackTree(t: Forest, i: nat)
    requires IsTree(t) && i < Size(t)
    ensures Levelled(Flatten(t, 1))
    ensures PathStack([], Flatten(t, 1)[..i + 1]) == TreePath(t, i)
  {
    var root, kids := FdtNode(t.data, 1), Flatten(t.children, 2);
    FlattenTake(t, 1, i);
    PathStackCons([], root, kids[..i]);
    if i > 0 {
      PathStackForest([], t.children, [], i - 1);
    }
  }

  lemma {:induction false} ForestLevels(f: Forest, prefix: seq<string>, i: nat)
    requires i < Size(f)
    ensures Flatten(f, |prefix| + 2)[i].level == |PathAt(f, prefix, i)| + 1
  {
    var n := Size(f.children);
    if 1 <= i <= n {
      ForestLevels(f.children, prefix + [f.data.name], i - 1);
    } else if i > n {
      ForestLevels(f.siblings, prefix, i - 1 - n);
    }
  }

  lemma {:induction false} TreeLevels(t: Forest, i: nat)
    requires IsTree(t) && i < Size(t)
    ensures Flatten(t, 1)[i].level == |TreePath(t, i)| + 1
  {
    if i > 0 {
      ForestLevels(t.children, [], i - 1);
      assert Flatten(t, 1)[i] == Flatten(t.children, 2)[i - 1];
    }
  }

  // ---- valid names, and paths against the tree

  /** A node name in the sense of section 2.2.1 of the Devicetree Specification, as far as paths care. */
  predicate ValidName(name: string) {
    name != [] && '/' !in name
  }

  function TopNames(f: Forest): set<string> {
    match f
    case Nil => {}
    case Node(d, _, s) => {d.name} + TopNames(s)
  }

  /** Every name is valid and siblings have distinct names. */
  predicate ValidNames(f: Forest) {
    f.Node? ==>
      && ValidName(f.data.name) && f.data.name !in TopNames(f.siblings)
      && ValidNames(f.children) && ValidNames(f.siblings)
  }

  predicate ValidTree(t: Forest) {
    IsTree(t) && ValidNames(t.children)
  }

  lemma {:induction false} PathShape(f: Forest, prefix: seq<string>, i: nat)
    requires i < Size(f)
    ensures prefix < PathAt(f, prefix, i)
    ensures PathAt(f, prefix, i)[|prefix|] in TopNames(f)
  {
    var n := Size(f.children);
    if 1 <= i <= n {
      PathShape(f.children, prefix + [f.data.name], i - 1);
      assert PathAt(f, prefix, i) == PathAt(f.children, prefix + [f.data.name], i - 1);
    } else if i > n {
      PathShape(f.siblings, prefix, i - 1 - n);
    }
  }

  /** The first name below `prefix` tells the first node's subtree from its siblings. */
  lemma {:induction false} TopName(f: Forest, prefix: seq<string>, i: nat)
    requires ValidNames(f) && i < Size(f)
    ensures |PathAt(f, prefix, i)| > |prefix|
    ensures PathAt(f, prefix, i)[|prefix|] == f.data.name <==> i <= Size(f.children)
  {
    var n := Size(f.children);
    if 1 <= i <= n {
      PathShape(f.children, prefix + [f.data.name], i - 1);
    } else if i > n {
      PathShape(f.siblings, prefix, i - 1 - n);
    }
  }

  lemma {:induction false} TopsDiffer(f: Forest, prefix: seq<string>, i: nat, j: nat)
    requires ValidNames(f) && i < Size(f) && j < Size(f)
    requires i <= Size(f.children) < j || j <= Size(f.children) < i
    ensures PathAt(f, prefix, i) != PathAt(f, prefix, j)
    ensures !(PathAt(f, prefix, i) < PathAt(f, prefix, j))
  {
    TopName(f, prefix, i);
    TopName(f, prefix, j);
  }

  /** In a forest with valid names, tree ancestry is the prefix order on paths and paths are distinct. */
  lemma {:induction false} AncestorIsPrefix(f: Forest, prefix: seq<string>, i: nat, j: nat)
    requires ValidNames(f) && i < Size(f) && j < Size(f)
    ensures IsAncestor(f, i, j) <==> PathAt(f, prefix, i) < PathAt(f, prefix, j)
    ensures PathAt(f, prefix, i) == PathAt(f, prefix, j) ==> i == j
    decreases f
  {
    var n := Size(f.children);
    var here := prefix + [f.data.name];
    if i <= n && j <= n {
      if i > 0 { PathShape(f.children, here, i - 1); }
      if j > 0 { PathShape(f.children, here, j - 1); }
      if i > 0 && j > 0 {
        AncestorIsPrefix(f.children, here, i - 1, j - 1);
      }
    } else if i > n && j > n {
      AncestorIsPrefix(f.siblings, prefix, i - 1 - n, j - 1 - n);
    } else {
      TopsDiffer(f, prefix, i, j);
    }
  }

  lemma {:induction false} TreeAncestorIsPrefix(t: Forest, i: nat, j: nat)
    requires ValidTree(t) && i < Size(t) && j < Size(t)
    ensures IsAncestor(t, i, j) <==> TreePath(t, i) < TreePath(t, j)
    ensures TreePath(t, i) == TreePath(t, j) ==> i == j
  {
    if i > 0 && j > 0 {
      AncestorIsPrefix(t.children, [], i - 1, j - 1);
    } else if i > 0 {
      PathShape(t.children, [], i - 1);
    } else if j > 0 {
      PathShape(t.children, [], j - 1);
    }
  }

  predicate AllValid(p: seq<string>) {
    forall k :: 0 <= k < |p| ==> ValidName(p[k])
  }

  lemma {:induction false} PathAtValid(f: Forest, prefix: seq<string>, i: nat)
    requires ValidNames(f) && AllValid(prefix) && i < Size(f)
    ensures AllValid(PathAt(f, prefix, i))
  {
    var n := Size(f.children);
    if 1 <= i <= n {
      PathAtValid(f.children, prefix + [f.data.name], i - 1);
    } else if i > n {
      PathAtValid(f.siblings, prefix, i - 1 - n);
    }
  }

  lemma {:induction false} TreePathsValid(t: Forest, i: nat)
    requires ValidTree(t) && i < Size(t)
    ensures AllValid(TreePath(t, i))
  {
    if i > 0 {
      PathAtValid(t.children, [], i - 1);
    }
  }

  // ---- paths as strings

  function Join(names: seq<string>, sep: string): string
    requires names != []
  {
    if |names| == 1 then names[0] else names[0] + sep + Join(names[1..], sep)
  }

  /** The string the source builds from a path stack. */
  function PathString(stack: seq<string>): string {
    if stack == [] || stack == [ROOT] then ROOT else "/" + Join(stack, "/")
  }

  /** Every name with a slash before it. */
  function Slashed(p: seq<string>): string {
    if p == [] then "" else "/" + p[0] + Slashed(p[1..])
  }

  lemma {:induction false} JoinIsSlashed(p: seq<string>)
    requires p != []
    ensures "/" + Join(p, "/") == Slashed(p)
  {
    if |p| > 1 {
      JoinIsSlashed(p[1..]);
      assert "/" + (p[0] + "/" + Join(p[1..], "/")) == "/" + p[0] + ("/" + Join(p[1..], "/"));
    } else {
      assert Slashed(p[1..]) == "";
      assert "/" + p[0] == "/" + p[0] + "";
    }
  }

  lemma {:induction false} PathStringIsSlashed(p: seq<string>)
    requires AllValid(p)
    ensures PathString(p) == if p == [] then ROOT else Slashed(p)
  {
    if p != [] {
      JoinIsSlashed(p);
      assert p[0] != ROOT by {
        assert ROOT[0] == '/';
      }
    }
  }

  lemma {:induction false} SlashedAppend(p: seq<string>, q: seq<string>)
    ensures Slashed(p + q) == Slashed(p) + Slashed(q)
  {
    if p == [] {
      EmptyAppend(q);
      EmptyAppend(Slashed(q));
    } else {
      SlashedAppend(p[1..], q);
      ConsTail(p, q);
      Assoc("/" + p[0], Slashed(p[1..]), Slashed(q));
    }
  }

  /** A string that is empty or continues with a new path component. */
  predicate AtBoundary(s: string) {
    s == "" || s[0] == '/'
  }

  /** Slash-free components are found again from a concatenation. */
  lemma {:induction false} SplitComponent(a: string, s: string, b: string, t: string)
    requires '/' !in a && '/' !in b && AtBoundary(s) && AtBoundary(t)
    requires a + s == b + t
    ensures a == b && s == t
  {
    var x, y := a + s, b + t;
    assert forall k :: 0 <= k < |a| ==> x[k] == a[k] != '/';
    assert forall k :: 0 <= k < |b| ==> y[k] == b[k] != '/';
    assert |a| < |x| ==> x[|a|] == '/';
    assert |b| < |y| ==> y[|b|] == '/';
    assert (a + s)[..|a|] == a && (b + t)[..|b|] == b;
    assert (a + s)[|a|..] == s && (b + t)[|b|..] == t;
  }

  /** Taking the first component off two renderings. */
  lemma {:induction false} FirstComponent(q: seq<string>, p: seq<string>, rest: string)
    requires AllValid(p) && AllValid(q) && AtBoundary(rest) && p != [] && q != []
    requires Slashed(p) == Slashed(q) + rest
    ensures p[0] == q[0] && Slashed(p[1..]) == Slashed(q[1..]) + rest
  {
    DropSlash(p[0], Slashed(p[1..]), q[0], Slashed(q[1..]), rest);
    SplitComponent(p[0], Slashed(p[1..]), q[0], Slashed(q[1..]) + rest);
  }

  lemma {:induction false} DropSlash(a: string, s: string, b: string, t: string, rest: string)
    requires "/" + a + s == "/" + b + t + rest
    ensures a + s == b + (t + rest)
  {
    assert ("/" + a + s)[1..] == a + s;
    assert ("/" + b + t + rest)[1..] == b + t + rest;
    Assoc(b, t, rest);
  }

  lemma {:induction false} PrefixCons(q: seq<string>, p: seq<string>)
    requires p != [] && q != [] && p[0] == q[0] && q[1..] <= p[1..]
    ensures q <= p && p[1..][|q| - 1..] == p[|q|..]
  {
    assert q == [q[0]] + q[1..] && p == [p[0]] + p[1..];
  }

  /** One rendered path continues another at a component boundary iff the name sequence does. */
  lemma {:induction false} SlashedPrefix(q: seq<string>, p: seq<string>, rest: string)
    requires AllValid(p) && AllValid(q) && AtBoundary(rest)
    requires Slashed(p) == Slashed(q) + rest
    ensures q <= p && Slashed(p[|q|..]) == rest
  {
    if q == [] {
      assert p[|q|..] == p;
      EmptyAppend(rest);
    } else {
      assert p != [] by {
        assert |Slashed(q)| > 0;
      }
      FirstComponent(q, p, rest);
      SlashedPrefix(q[1..], p[1..], rest);
      PrefixCons(q, p);
    }
  }

  /** Distinct valid paths render to distinct strings. */
  lemma {:induction false} PathStringInjective(p: seq<string>, q: seq<string>)
    requires AllValid(p) && AllValid(q) && PathString(p) == PathString(q)
    ensures p == q
  {
    PathStringIsSlashed(p);
    PathStringIsSlashed(q);
    if p != [] && q != [] {
      assert Slashed(p) == Slashed(q) + "";
      SlashedPrefix(q, p, "");
      assert Slashed(q) == Slashed(p) + "";
      SlashedPrefix(p, q, "");
    } else if p != [] {
      SlashedLonger(p);
    } else if q != [] {
      SlashedLonger(q);
    }
  }

  lemma {:induction false} SlashedLonger(p: seq<string>)
    requires AllValid(p) && p != []
    ensures |Slashed(p)| >= 2
  {
    assert |Slashed(p)| >= 1 + |p[0]|;
  }

  /** The string test "starts with `qs`, is longer, and continues with a component" between two paths. */
  predicate ContinuesAfter(ps: string, qs: string) {
    qs <= ps && |ps| > |qs| && (qs == ROOT || ps[|qs|] == '/')
  }

  lemma {:induction false} PrefixContinues(p: seq<string>, q: seq<string>)
    requires AllValid(p) && AllValid(q) && q < p
    ensures ContinuesAfter(PathString(p), PathString(q))
  {
    PathStringIsSlashed(p);
    PathStringIsSlashed(q);
    SlashedLonger(p);
    if q != [] {
      var rest := p[|q|..];
      assert p == q + rest;
      SlashedAppend(q, rest);
      SlashedLonger(rest);
    }
  }

  lemma {:induction false} ContinuesIsPrefix(p: seq<string>, q: seq<string>)
    requires AllValid(p) && AllValid(q) && ContinuesAfter(PathString(p), PathString(q))
    ensures q < p
  {
    var ps, qs := PathString(p), PathString(q);
    PathStringIsSlashed(p);
    PathStringIsSlashed(q);
    if q != [] {
      SlashedLonger(q);
      assert ps == qs + ps[|qs|..];
      SlashedPrefix(q, p, ps[|qs|..]);
    }
  }

  /** On rendered valid paths the string test is the strict prefix order. */
  lemma {:induction false} ContinuesIffPrefix(p: seq<string>, q: seq<string>)
    requires AllValid(p) && AllValid(q)
    ensures ContinuesAfter(PathString(p), PathString(q)) <==> q < p
  {
    if q < p {
      PrefixContinues(p, q);
    }
    if ContinuesAfter(PathString(p), PathString(q)) {
      ContinuesIsPrefix(p, q);
    }
  }

  // ---- build_node_path

  /** `build_node_path`: rebuild the path of one node from the levels of all nodes up to it. */
  method BuildNodePath(nodes: seq<FdtNode>, target: nat) returns (path: string)
    requires Levelled(nodes)
    ensures path == PathString(PathStack([], nodes[..Min(|nodes|, target + 1)]))
  {
    var stack: seq<string> := [];
    var n := Min(|nodes|, target + 1);
    for i := 0 to n
      invariant stack == PathStack([], nodes[..i])
    {
      var node := nodes[i];
      assert nodes[..i + 1] == nodes[..i] + [node];
      PathStackAppend([], nodes[..i], [node]);
      assert PathStack(stack, [node]) == PushName(stack, node);
      if node.level == 1 {
        stack := [];
        if node.data.name != ROOT {
          stack := stack + [node.data.name];
        }
      } else {
        ghost var before := stack;
        while |stack| >= node.level - 1
          invariant stack == before[..Min(|before|, |stack|)] && |stack| <= |before|
          invariant |stack| == |before| || |stack| >= node.level - 2
        {
          stack := stack[..|stack| - 1];
        }
        stack := stack + [node.data.name];
      }
    }
    path := if |stack| == 0 || (|stack| == 1 && stack[0] == ROOT) then ROOT else "/" + Join(stack, "/");
  }

  /** For every tree, the rebuilt path of the i-th listed node is its root-to-node path. */
  function NodePath(t: Forest, i: nat): string
    requires IsTree(t) && i < Size(t)
  {
    PathString(TreePath(t, i))
  }

  lemma {:induction false} BuiltPathIsNodePath(t: Forest, i: nat)
    requires IsTree(t) && i < Size(t)
    ensures Levelled(Flatten(t, 1))
    ensures PathString(PathStack([], Flatten(t, 1)[..Min(Size(t), i + 1)])) == NodePath(t, i)
  {
    PathStackTree(t, i);
  }

  /** With valid names, the string test between two nodes' paths is the ancestor relation of the tree. */
  lemma {:induction false} ContinuesIffAncestor(t: Forest, i: nat, j: nat)
    requires ValidTree(t) && i < Size(t) && j < Size(t)
    ensures ContinuesAfter(NodePath(t, j), NodePath(t, i)) <==> IsAncestor(t, i, j)
    ensures NodePath(t, i) == NodePath(t, j) <==> i == j
  {
    TreePathsValid(t, i);
    TreePathsValid(t, j);
    ContinuesIffPrefix(TreePath(t, j), TreePath(t, i));
    TreeAncestorIsPrefix(t, i, j);
    if NodePath(t, i) == NodePath(t, j) {
      PathStringInjective(TreePath(t, i), TreePath(t, j));
    }
  }
}
