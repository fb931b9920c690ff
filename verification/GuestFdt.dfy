/** `crate_guest_fdt`: which host nodes the guest keeps, and the tree that is written. */
module GuestFdt {
  import opened Basics
  import opened DeviceTree
  import opened FdtStream
  import opened NodePaths
  import opened Listings

  datatype NodeAction =
    | Skip
    | RootNode
    | CpuNode
    | IncludeAsPassthroughDevice
    | IncludeAsChildNode
    | IncludeAsAncestorNode

  const MEMORY: string := "memory"
  const CPUS: string := "/cpus"
  const CPU_AT: string := "/cpus/cpu@"

  function CountSlashes(s: string): nat {
    if s == "" then 0 else (if s[0] == '/' then 1 else 0) + CountSlashes(s[1..])
  }

  predicate LevelAllows(device: string, level: nat) {
    (device == ROOT && level >= 2) || (device != ROOT && level > CountSlashes(device))
  }

  predicate IsDescendantOfPassthroughDevice(path: string, level: nat, names: seq<string>) {
    exists k :: 0 <= k < |names| && ContinuesAfter(path, names[k]) && LevelAllows(names[k], level)
  }

  predicate IsAncestorOfPassthroughDevice(path: string, names: seq<string>) {
    exists k :: 0 <= k < |names| && ContinuesAfter(names[k], path)
  }

  function DetermineNodeAction(node: FdtNode, path: string, names: seq<string>): NodeAction {
    if node.data.name == ROOT then RootNode
    else if MEMORY <= node.data.name then Skip
    else if CPUS <= path then CpuNode
    else if path in names then IncludeAsPassthroughDevice
    else if IsDescendantOfPassthroughDevice(path, node.level, names) then IncludeAsChildNode
    else if IsAncestorOfPassthroughDevice(path, names) then IncludeAsAncestorNode
    else Skip
  }

  predicate NeedCpuNode(cpus: seq<nat>, d: NodeData, path: string) {
    !(CPU_AT <= path) || (d.reg.Some? && d.reg.value in cpus)
  }

  /** A node that `crate_guest_fdt` writes. */
  predicate Selected(node: FdtNode, path: string, names: seq<string>, cpus: seq<nat>) {
    match DetermineNodeAction(node, path, names)
    case RootNode => true
    case CpuNode => NeedCpuNode(cpus, node.data, path)
    case Skip => false
    case _ => true
  }

  /** A node that is skipped whatever devices are passed through. */
  predicate Blocked(d: NodeData, path: string, cpus: seq<nat>) {
    MEMORY <= d.name || !NeedCpuNode(cpus, d, path)
  }

  // ---- the method

  function ListedPath(nodes: seq<FdtNode>, i: nat): string
    requires Levelled(nodes) && i < |nodes|
  {
    PathString(PathStack([], nodes[..i + 1]))
  }

  /** The path of every node of a listing. */
  function ListedPaths(nodes: seq<FdtNode>): (paths: seq<string>)
    requires Levelled(nodes)
  {
    seq(|nodes|, i requires 0 <= i < |nodes| => ListedPath(nodes, i))
  }

  function ListMask(nodes: seq<FdtNode>, names: seq<string>, cpus: seq<nat>): (m: seq<bool>)
    requires Levelled(nodes)
    ensures |m| == |nodes|
  {
    seq(|nodes|, i requires 0 <= i < |nodes| => Selected(nodes[i], ListedPath(nodes, i), names, cpus))
  }

  lemma {:induction false} SelectSnoc<T>(nodes: seq<T>, keep: seq<bool>, i: nat)
    requires |nodes| == |keep| && i < |nodes|
    ensures var before := Select(nodes[..i], keep[..i]);
      Select(nodes[..i + 1], keep[..i + 1]) == if keep[i] then before + [nodes[i]] else before
  {
    assert nodes[..i + 1] == nodes[..i] + [nodes[i]] && keep[..i + 1] == keep[..i] + [keep[i]];
    SelectAppend(nodes[..i], [nodes[i]], keep[..i], [keep[i]]);
  }

  /** The walk state after the kept nodes among the first `i`. */
  ghost function EmitUpTo(w: Walk, nodes: seq<FdtNode>, keep: seq<bool>, i: nat): Walk
    requires |nodes| == |keep| && i <= |nodes|
  {
    Emit(w, Select(nodes[..i], keep[..i]))
  }

  lemma {:induction false} EmitNext(w: Walk, nodes: seq<FdtNode>, keep: seq<bool>, i: nat)
    requires |nodes| == |keep| && i < |nodes|
    ensures EmitUpTo(w, nodes, keep, i + 1) ==
      if keep[i] then Step(EmitUpTo(w, nodes, keep, i), nodes[i]) else EmitUpTo(w, nodes, keep, i)
  {
    SelectSnoc(nodes, keep, i);
    EmitAppend(w, Select(nodes[..i], keep[..i]), [nodes[i]]);
  }

  lemma {:induction false} EmitAll(w: Walk, nodes: seq<FdtNode>, keep: seq<bool>)
    requires |nodes| == |keep|
    ensures EmitUpTo(w, nodes, keep, 0) == w
    ensures EmitUpTo(w, nodes, keep, |nodes|) == Emit(w, Select(nodes, keep))
  {
    assert nodes[..|nodes|] == nodes && keep[..|nodes|] == keep;
  }

  /** One turn of the loop: a kept node is opened where its level says, a skipped one changes nothing. */
  method VisitNode(events: seq<Event>, stack: seq<string>, previous: nat, node: FdtNode, path: string,
      names: seq<string>, cpus: seq<nat>)
    returns (events': seq<Event>, stack': seq<string>, previous': nat)
    ensures var w, w' := Walk(events, |stack|, previous), Walk(events', |stack'|, previous');
      w' == if Selected(node, path, names, cpus) then Step(w, node) else w
  {
    events', stack', previous' := events, stack, previous;
    var action := DetermineNodeAction(node, path, names);
    match action {
      case RootNode =>
      case CpuNode =>
        var need := NeedCpuNode(cpus, node.data, path);
        if !need {
          return;
        }
        events', stack' := HandleNodeLevelChange(events, stack, node.level, previous);
      case Skip =>
        return;
      case _ =>
        events', stack' := HandleNodeLevelChange(events, stack, node.level, previous);
    }
    stack' := stack' + [node.data.name];
    previous' := node.level;
    events' := BeginNode(events', node.data);
  }

  /** `crate_guest_fdt` over any node listing; `None` is the panic of the closing assertion. */
  method CrateGuestFdt(nodes: seq<FdtNode>, names: seq<string>, cpus: seq<nat>)
    returns (out: Option<seq<Event>>)
    requires Levelled(nodes)
    ensures out == Finish(Emit(START, Select(nodes, ListMask(nodes, names, cpus))))
  {
    var events: seq<Event>, stack: seq<string>, previous: nat := [], [], 0;
    ghost var keep := ListMask(nodes, names, cpus);
    EmitAll(START, nodes, keep);
    for index := 0 to |nodes|
      invariant Walk(events, |stack|, previous) == EmitUpTo(START, nodes, keep, index)
    {
      var path := BuildNodePath(nodes, index);
      EmitNext(START, nodes, keep, index);
      events, stack, previous := VisitNode(events, stack, previous, nodes[index], path, names, cpus);
    }
    out := CloseAll(events, stack, previous);
  }

  // ---- the kept set

  /** The nodes of a tree that `crate_guest_fdt` keeps. */
  function GuestMask(t: Forest, names: seq<string>, cpus: seq<nat>): (m: seq<bool>)
    requires IsTree(t)
    ensures |m| == Size(t)
  {
    seq(Size(t), i requires 0 <= i < Size(t) => Selected(Flatten(t, 1)[i], NodePath(t, i), names, cpus))
  }

  lemma {:induction false} ListMaskIsGuestMask(t: Forest, names: seq<string>, cpus: seq<nat>)
    requires IsTree(t)
    ensures Levelled(Flatten(t, 1))
    ensures ListMask(Flatten(t, 1), names, cpus) == GuestMask(t, names, cpus)
  {
    forall i | 0 <= i < Size(t)
      ensures ListedPath(Flatten(t, 1), i) == NodePath(t, i)
    {
      BuiltPathIsNodePath(t, i);
    }
  }

  lemma {:induction false} SlashFree(s: string)
    requires '/' !in s
    ensures CountSlashes(s) == 0
  {
    if s != "" {
      SlashFree(s[1..]);
    }
  }

  lemma {:induction false} CountAppend(a: string, b: string)
    ensures CountSlashes(a + b) == CountSlashes(a) + CountSlashes(b)
  {
    if a == "" {
      assert a + b == b;
    } else {
      CountAppend(a[1..], b);
      assert (a + b)[1..] == a[1..] + b;
    }
  }

  lemma {:induction false} CountSlashed(p: seq<string>)
    requires AllValid(p)
    ensures CountSlashes(Slashed(p)) == |p|
  {
    if p != [] {
      CountSlashed(p[1..]);
      SlashFree(p[0]);
      assert CountSlashes("/") == 1 by { assert "/"[1..] == ""; }
      CountAppend("/", p[0]);
      CountAppend("/" + p[0], Slashed(p[1..]));
    }
  }

  /** The level test adds nothing to a component-wise descendant test, whatever the device string is. */
  lemma {:induction false} LevelImplied(p: seq<string>, device: string)
    requires AllValid(p) && p != [] && ContinuesAfter(PathString(p), device)
    ensures LevelAllows(device, |p| + 1)
  {
    PathStringIsSlashed(p);
    CountSlashed(p);
    var s := Slashed(p);
    assert s == device + s[|device|..];
    CountAppend(device, s[|device|..]);
  }

  /** A path below another is its string and a rest that starts with a slash. */
  lemma {:induction false} BelowString(q: seq<string>, p: seq<string>)
    requires AllValid(p) && AllValid(q) && q < p && q != []
    ensures var ps, qs := PathString(p), PathString(q);
      qs < ps && ps[|qs|] == '/' && qs != ROOT && ps != ROOT
  {
    PathStringIsSlashed(p);
    PathStringIsSlashed(q);
    SlashedLonger(q);
    assert p == q + p[|q|..];
    SlashedAppend(q, p[|q|..]);
    assert Slashed(p)[|Slashed(q)|..] == Slashed(p[|q|..]);
  }

  /** Being under "/cpus" is decided by the first name, so ancestors below the root share it. */
  lemma {:induction false} SameSideOfCpus(q: seq<string>, p: seq<string>)
    requires AllValid(p) && AllValid(q) && q <= p && q != []
    ensures CPUS <= PathString(p) <==> CPUS <= PathString(q)
  {
    UnderCpusIff(p);
    UnderCpusIff(q);
  }

  lemma {:induction false} UnderCpusIff(p: seq<string>)
    requires AllValid(p) && p != []
    ensures CPUS <= PathString(p) <==> "cpus" <= p[0]
  {
    PathStringIsSlashed(p);
    var s, rest := Slashed(p), Slashed(p[1..]);
    assert s == "/" + p[0] + rest;
    assert forall k :: 0 <= k < |p[0]| ==> s[k + 1] == p[0][k];
    assert |s| > 1 + |p[0]| ==> s[1 + |p[0]|] == rest[0] == '/';
    assert CPUS[1..] == "cpus";
    if CPUS <= s {
      assert forall k :: 0 <= k < 4 ==> s[k + 1] == CPUS[k + 1] == "cpus"[k] != '/';
    }
    if "cpus" <= p[0] {
      assert forall k :: 0 <= k < 4 ==> s[k + 1] == p[0][k] == "cpus"[k];
      assert forall k :: 0 <= k < 5 ==> s[k] == CPUS[k];
    }
  }

  /** Outside "/cpus", whatever selects a node by its path selects every node above it. */
  lemma {:induction false} PathTestsClosed(q: seq<string>, p: seq<string>, names: seq<string>, level: nat)
    requires AllValid(p) && AllValid(q) && q < p && q != []
    requires var ps := PathString(p);
      ps in names || IsDescendantOfPassthroughDevice(ps, level, names) || IsAncestorOfPassthroughDevice(ps, names)
    ensures var qs := PathString(q);
      qs in names || IsDescendantOfPassthroughDevice(qs, |q| + 1, names) || IsAncestorOfPassthroughDevice(qs, names)
  {
    var ps, qs := PathString(p), PathString(q);
    BelowString(q, p);
    var k :| 0 <= k < |names|
      && (names[k] == ps || ContinuesAfter(ps, names[k]) || ContinuesAfter(names[k], ps));
    var device := names[k];
    if !ContinuesAfter(ps, device) {
      assert device == ps || ContinuesAfter(device, ps);
      assert device == ps ==> device[..|ps|] == ps;
      assert device[..|ps|][|qs|] == ps[|qs|] && device[..|ps|][..|qs|] == qs;
      assert ContinuesAfter(device, qs);
    } else if |device| > |qs| {
      assert device == ps[..|device|];
      assert ContinuesAfter(device, qs);
    } else if |device| == |qs| {
      assert device == ps[..|qs|] == qs;
    } else {
      assert device == ps[..|device|] && qs == ps[..|qs|];
      assert ContinuesAfter(qs, device);
      LevelImplied(q, device);
    }
  }

  lemma {:induction false} NodeAt(t: Forest, i: nat)
    requires ValidTree(t) && i < Size(t)
    ensures Flatten(t, 1)[i].level == |TreePath(t, i)| + 1
    ensures AllValid(TreePath(t, i))
    ensures TreePath(t, i) == [] <==> i == 0
    ensures Flatten(t, 1)[i].data.name == ROOT <==> i == 0
  {
    TreeLevels(t, i);
    TreePathsValid(t, i);
    if i > 0 {
      PathShape(t.children, [], i - 1);
      NoRootListed(t.children, 2, i - 1);
    }
  }

  lemma {:induction false} NoRootListed(f: Forest, level: nat, i: nat)
    requires NoRoot(f) && i < Size(f)
    ensures Flatten(f, level)[i].data.name != ROOT
  {
    var n := Size(f.children);
    if 1 <= i <= n {
      NoRootListed(f.children, level + 1, i - 1);
    } else if i > n {
      NoRootListed(f.siblings, level, i - 1 - n);
    }
  }

  /** A kept node's ancestor is kept unless it is a memory node or an unwanted cpu node. */
  lemma {:induction false} SelectedAncestor(t: Forest, names: seq<string>, cpus: seq<nat>, i: nat, j: nat)
    requires ValidTree(t) && IsAncestor(t, i, j)
    requires GuestMask(t, names, cpus)[j]
    requires !Blocked(Flatten(t, 1)[i].data, NodePath(t, i), cpus)
    ensures GuestMask(t, names, cpus)[i]
  {
    var q, p := TreePath(t, i), TreePath(t, j);
    NodeAt(t, i);
    NodeAt(t, j);
    TreeAncestorIsPrefix(t, i, j);
    if i > 0 {
      SameSideOfCpus(q, p);
      if !(CPUS <= PathString(p)) {
        PathTestsClosed(q, p, names, |p| + 1);
      }
    }
  }

  /** No kept node lies below a memory node or below an unwanted cpu node. */
  ghost predicate GuardsQuiet(t: Forest, names: seq<string>, cpus: seq<nat>)
    requires IsTree(t)
  {
    forall i: nat, j: nat :: IsAncestor(t, i, j) && Blocked(Flatten(t, 1)[i].data, NodePath(t, i), cpus)
      ==> !GuestMask(t, names, cpus)[j]
  }

  lemma {:induction false} BlockedIsSkipped(t: Forest, names: seq<string>, cpus: seq<nat>, i: nat)
    requires ValidTree(t) && i < Size(t)
    requires Blocked(Flatten(t, 1)[i].data, NodePath(t, i), cpus)
    ensures !GuestMask(t, names, cpus)[i]
  {
    NodeAt(t, i);
    if CPU_AT <= NodePath(t, i) {
      assert CPUS == CPU_AT[..5];
      assert CPUS <= NodePath(t, i);
    }
  }

  /** The kept set contains all ancestors of what it contains exactly when the two guards stay quiet. */
  lemma {:induction false} KeptClosedIff(t: Forest, names: seq<string>, cpus: seq<nat>)
    requires ValidTree(t)
    ensures Closed(t, GuestMask(t, names, cpus)) <==> GuardsQuiet(t, names, cpus)
  {
    var keep := GuestMask(t, names, cpus);
    if GuardsQuiet(t, names, cpus) {
      forall i: nat, j: nat | IsAncestor(t, i, j) && keep[j] ensures keep[i] {
        SelectedAncestor(t, names, cpus, i, j);
      }
    }
    if Closed(t, keep) {
      forall i: nat, j: nat | IsAncestor(t, i, j) && Blocked(Flatten(t, 1)[i].data, NodePath(t, i), cpus)
        ensures !keep[j]
      {
        BlockedIsSkipped(t, names, cpus, i);
      }
    }
  }

  /** End to end: `crate_guest_fdt` writes the host tree pruned to the kept set iff the guards stay quiet. */
  lemma {:induction false} GuestTreeIff(t: Forest, names: seq<string>, cpus: seq<nat>)
    requires ValidTree(t)
    ensures Levelled(Flatten(t, 1))
    ensures var nodes := Flatten(t, 1);
      Finish(Emit(START, Select(nodes, ListMask(nodes, names, cpus))))
        == Some(Serialise(Prune(t, GuestMask(t, names, cpus))))
      <==> GuardsQuiet(t, names, cpus)
  {
    ListMaskIsGuestMask(t, names, cpus);
    KeptClosedIff(t, names, cpus);
    EmitSelectedIffClosed(t, GuestMask(t, names, cpus));
  }

  /** For devices named by node paths, the kept nodes are the devices and all above and below them. */
  lemma {:induction false} SelectedIff(t: Forest, names: seq<string>, cpus: seq<nat>, devices: seq<nat>, i: nat)
    requires ValidTree(t) && 0 < i < Size(t) && |devices| == |names|
    requires forall k :: 0 <= k < |names| ==> devices[k] < Size(t) && names[k] == NodePath(t, devices[k])
    requires !(MEMORY <= Flatten(t, 1)[i].data.name) && !(CPUS <= NodePath(t, i))
    ensures GuestMask(t, names, cpus)[i] <==>
      exists k :: 0 <= k < |names| &&
        (devices[k] == i || IsAncestor(t, devices[k], i) || IsAncestor(t, i, devices[k]))
  {
    NodeAt(t, i);
    forall k | 0 <= k < |names|
      ensures names[k] == NodePath(t, i) <==> devices[k] == i
      ensures ContinuesAfter(names[k], NodePath(t, i)) <==> IsAncestor(t, i, devices[k])
      ensures ContinuesAfter(NodePath(t, i), names[k]) && LevelAllows(names[k], Flatten(t, 1)[i].level)
        <==> IsAncestor(t, devices[k], i)
    {
      DeviceTests(t, i, devices[k]);
    }
  }

  /** The three path tests of a node against one device are equality, "above" and "below" in the tree. */
  lemma {:induction false} DeviceTests(t: Forest, i: nat, k: nat)
    requires ValidTree(t) && 0 < i < Size(t) && k < Size(t)
    ensures NodePath(t, k) == NodePath(t, i) <==> k == i
    ensures ContinuesAfter(NodePath(t, k), NodePath(t, i)) <==> IsAncestor(t, i, k)
    ensures ContinuesAfter(NodePath(t, i), NodePath(t, k)) && LevelAllows(NodePath(t, k), Flatten(t, 1)[i].level)
      <==> IsAncestor(t, k, i)
  {
    NodeAt(t, i);
    ContinuesIffAncestor(t, i, k);
    ContinuesIffAncestor(t, k, i);
    if ContinuesAfter(NodePath(t, i), NodePath(t, k)) {
      LevelImplied(TreePath(t, i), NodePath(t, k));
    }
  }

  // ---- the condition on the inputs, and what is written when it fails

  /** Node `j` is a device, or lies above or below one. */
  ghost predicate NearDevice(t: Forest, devices: seq<nat>, j: nat) {
    exists k :: 0 <= k < |devices| &&
      (devices[k] == j || IsAncestor(t, devices[k], j) || IsAncestor(t, j, devices[k]))
  }

  /** Whatever lies below a memory node or an unwanted cpu node is one itself, or outside "/cpus" and near no device. */
  ghost predicate NothingCutOff(t: Forest, devices: seq<nat>, cpus: seq<nat>)
    requires IsTree(t)
  {
    forall i: nat, j: nat :: IsAncestor(t, i, j) && Blocked(Flatten(t, 1)[i].data, NodePath(t, i), cpus) ==>
      || Blocked(Flatten(t, 1)[j].data, NodePath(t, j), cpus)
      || (!(CPUS <= NodePath(t, j)) && !NearDevice(t, devices, j))
  }

  lemma {:induction false} KeptIff(t: Forest, names: seq<string>, cpus: seq<nat>, devices: seq<nat>, j: nat)
    requires ValidTree(t) && 0 < j < Size(t) && |devices| == |names|
    requires forall k :: 0 <= k < |names| ==> devices[k] < Size(t) && names[k] == NodePath(t, devices[k])
    ensures GuestMask(t, names, cpus)[j] <==>
      && !Blocked(Flatten(t, 1)[j].data, NodePath(t, j), cpus)
      && (CPUS <= NodePath(t, j) || NearDevice(t, devices, j))
  {
    NodeAt(t, j);
    if Blocked(Flatten(t, 1)[j].data, NodePath(t, j), cpus) {
      BlockedIsSkipped(t, names, cpus, j);
    } else if !(CPUS <= NodePath(t, j)) {
      SelectedIff(t, names, cpus, devices, j);
    }
  }

  /** The guards stay quiet iff nothing is cut off, which can be read off the tree, the devices and the cpus. */
  lemma {:induction false} QuietIff(t: Forest, names: seq<string>, cpus: seq<nat>, devices: seq<nat>)
    requires ValidTree(t) && |devices| == |names|
    requires forall k :: 0 <= k < |names| ==> devices[k] < Size(t) && names[k] == NodePath(t, devices[k])
    ensures GuardsQuiet(t, names, cpus) <==> NothingCutOff(t, devices, cpus)
  {
    forall i: nat, j: nat | IsAncestor(t, i, j)
      ensures GuestMask(t, names, cpus)[j] <==>
        && !Blocked(Flatten(t, 1)[j].data, NodePath(t, j), cpus)
        && (CPUS <= NodePath(t, j) || NearDevice(t, devices, j))
    {
      KeptIff(t, names, cpus, devices, j);
    }
  }

  lemma {:induction false} SelectTree(t: Forest, keep: seq<bool>)
    requires IsTree(t) && |keep| == Size(t)
    ensures |keep[1..]| == Size(t.children)
    ensures Select(Flatten(t, 1), keep)
      == (if keep[0] then [FdtNode(t.data, 1)] else []) + Select(Flatten(t.children, 2), keep[1..])
  {
    FlattenSingle(t.data, t.children, 1);
    assert Flatten(t, 1)[1..] == Flatten(t.children, 2);
  }

  lemma {:induction false} NoRootSelected(f: Forest, level: nat, keep: seq<bool>)
    requires NoRoot(f) && |keep| == Size(f)
    ensures forall k :: 0 <= k < |Select(Flatten(f, level), keep)| ==>
      var node := Select(Flatten(f, level), keep)[k]; node.data.name != ROOT && node.level >= level
  {
    var nodes := Flatten(f, level);
    forall k | 0 <= k < |Select(nodes, keep)|
      ensures Select(nodes, keep)[k].data.name != ROOT && Select(nodes, keep)[k].level >= level
    {
      SelectIn(nodes, keep, k);
      var i :| 0 <= i < |nodes| && nodes[i] == Select(nodes, keep)[k];
      NoRootListed(f, level, i);
    }
  }

  /**
   * Whatever is kept, cut off or not: if a level is jumped over the source panics, and otherwise it writes the
   * one tree that the kept nodes list, each below the last node before it one level above.
   */
  lemma {:induction false} GuestStream(t: Forest, names: seq<string>, cpus: seq<nat>)
    requires ValidTree(t)
    ensures Levelled(Flatten(t, 1)) && |GuestMask(t, names, cpus)[1..]| == Size(t.children)
    ensures var nodes, kept := Flatten(t, 1), Select(Flatten(t.children, 2), GuestMask(t, names, cpus)[1..]);
      && (NoJump(1, kept) ==> Listable(kept, 2))
      && Finish(Emit(START, Select(nodes, ListMask(nodes, names, cpus)))) ==
         if NoJump(1, kept) then Some(Serialise(Node(t.data, Build(kept, 2), Nil))) else None
  {
    var mask := GuestMask(t, names, cpus);
    ListMaskIsGuestMask(t, names, cpus);
    SelectTree(t, mask);
    NoRootSelected(t.children, 2, mask[1..]);
    StreamOfListing(FdtNode(t.data, 1), Select(Flatten(t.children, 2), mask[1..]));
  }
}
