/** `update_cpu_node`: the guest tree with its cpu nodes replaced by the host's. */
module CpuNodes {
  import opened Basics
  import opened DeviceTree
  import opened FdtStream
  import opened NodePaths
  import opened GuestFdt
  import opened Listings

  predicate GuestKeeps(node: FdtNode, path: string) {
    node.data.name == ROOT || !(CPUS <= path)
  }

  predicate HostKeeps(node: FdtNode, path: string, cpus: seq<nat>) {
    CPUS <= path && NeedCpuNode(cpus, node.data, path)
  }

  function GuestListMask(nodes: seq<FdtNode>): (m: seq<bool>)
    requires Levelled(nodes)
    ensures |m| == |nodes|
  {
    seq(|nodes|, i requires 0 <= i < |nodes| => GuestKeeps(nodes[i], ListedPath(nodes, i)))
  }

  function HostListMask(nodes: seq<FdtNode>, cpus: seq<nat>): (m: seq<bool>)
    requires Levelled(nodes)
    ensures |m| == |nodes|
  {
    seq(|nodes|, i requires 0 <= i < |nodes| => HostKeeps(nodes[i], ListedPath(nodes, i), cpus))
  }

  /** A host node is written under its own name, whatever that is, and always makes room for itself. */
  function HostStep(w: Walk, node: FdtNode): Walk {
    var l := Leave(w, node.level);
    Walk(l.events + ([Begin(node.data.name)] + PropEvents(node.data.props)), l.open + 1, node.level)
  }

  function HostEmit(w: Walk, nodes: seq<FdtNode>): Walk
    decreases |nodes|
  {
    if nodes == [] then w else HostEmit(HostStep(w, nodes[0]), nodes[1..])
  }

  lemma {:induction false} HostEmitSnoc(w: Walk, nodes: seq<FdtNode>, node: FdtNode)
    ensures HostEmit(w, nodes + [node]) == HostStep(HostEmit(w, nodes), node)
    decreases |nodes|
  {
    if nodes == [] {
      EmptyAppend([node]);
      assert [node][1..] == [];
    } else {
      HostEmitSnoc(HostStep(w, nodes[0]), nodes[1..], node);
      ConsTail(nodes, [node]);
    }
  }

  /** Nodes that are not named "/" are written like any others. */
  lemma {:induction false} HostEmitIsEmit(w: Walk, nodes: seq<FdtNode>)
    requires forall k :: 0 <= k < |nodes| ==> nodes[k].data.name != ROOT
    ensures HostEmit(w, nodes) == Emit(w, nodes)
    decreases |nodes|
  {
    if nodes != [] {
      HostEmitIsEmit(HostStep(w, nodes[0]), nodes[1..]);
    }
  }

  ghost function HostUpTo(w: Walk, nodes: seq<FdtNode>, keep: seq<bool>, i: nat): Walk
    requires |nodes| == |keep| && i <= |nodes|
  {
    HostEmit(w, Select(nodes[..i], keep[..i]))
  }

  lemma {:induction false} HostNext(w: Walk, nodes: seq<FdtNode>, keep: seq<bool>, i: nat)
    requires |nodes| == |keep| && i < |nodes|
    ensures HostUpTo(w, nodes, keep, i + 1) ==
      if keep[i] then HostStep(HostUpTo(w, nodes, keep, i), nodes[i]) else HostUpTo(w, nodes, keep, i)
  {
    SelectSnoc(nodes, keep, i);
    HostEmitSnoc(w, Select(nodes[..i], keep[..i]), nodes[i]);
  }

  lemma {:induction false} HostAll(w: Walk, nodes: seq<FdtNode>, keep: seq<bool>)
    requires |nodes| == |keep|
    ensures HostUpTo(w, nodes, keep, 0) == w
    ensures HostUpTo(w, nodes, keep, |nodes|) == HostEmit(w, Select(nodes, keep))
  {
    assert nodes[..|nodes|] == nodes && keep[..|nodes|] == keep;
  }

  /** `update_cpu_node`: one stack walks the guest listing and then the host listing. */
  method UpdateCpuNode(guest: seq<FdtNode>, host: seq<FdtNode>, cpus: seq<nat>)
    returns (out: Option<seq<Event>>)
    requires Levelled(guest) && Levelled(host)
    ensures out == Finish(HostEmit(Emit(START, Select(guest, GuestListMask(guest))),
                                   Select(host, HostListMask(host, cpus))))
  {
    var events: seq<Event>, stack: seq<string>, previous: nat := [], [], 0;
    ghost var keep := GuestListMask(guest);
    EmitAll(START, guest, keep);
    for index := 0 to |guest|
      invariant Walk(events, |stack|, previous) == EmitUpTo(START, guest, keep, index)
    {
      var node := guest[index];
      var path := BuildNodePath(guest, index);
      assert path == ListedPath(guest, index);
      EmitNext(START, guest, keep, index);
      if node.data.name == ROOT {
      } else if CPUS <= path {
        continue;
      } else {
        events, stack := HandleNodeLevelChange(events, stack, node.level, previous);
      }
      stack := stack + [node.data.name];
      previous := node.level;
      events := BeginNode(events, node.data);
    }
    ghost var w := Emit(START, Select(guest, keep));
    ghost var take := HostListMask(host, cpus);
    HostAll(w, host, take);
    for index := 0 to |host|
      invariant Walk(events, |stack|, previous) == HostUpTo(w, host, take, index)
    {
      var node := host[index];
      var path := BuildNodePath(host, index);
      assert path == ListedPath(host, index);
      HostNext(w, host, take, index);
      if CPUS <= path {
        var need := NeedCpuNode(cpus, node.data, path);
        if need {
          events, stack := HandleNodeLevelChange(events, stack, node.level, previous);
          stack := stack + [node.data.name];
          events := BeginNamed(events, node.data.name, node.data.props);
          previous := node.level;
        }
      }
    }
    out := CloseAll(events, stack, previous);
  }

  // ---- on trees

  /** The nodes below the root whose path does not start with "/cpus". */
  function NonCpuMask(f: Forest): (m: seq<bool>)
    ensures |m| == Size(f)
  {
    seq(Size(f), i requires 0 <= i < Size(f) => !(CPUS <= PathString(PathAt(f, [], i))))
  }

  /** The nodes below the root that lie under "/cpus" and are not unwanted cpus. */
  function CpuMask(f: Forest, cpus: seq<nat>): (m: seq<bool>)
    ensures |m| == Size(f)
  {
    seq(Size(f), i requires 0 <= i < Size(f) =>
      HostKeeps(Flatten(f, 2)[i], PathString(PathAt(f, [], i)), cpus))
  }

  /** What `update_cpu_node` is meant to write. */
  function WithHostCpus(guest: Forest, host: Forest, cpus: seq<nat>): Forest
    requires IsTree(guest) && IsTree(host)
  {
    var g, h := guest.children, host.children;
    Node(guest.data, Append(Prune(g, NonCpuMask(g)), Prune(h, CpuMask(h, cpus))), Nil)
  }

  lemma {:induction false} BelowRoot(t: Forest, i: nat)
    requires IsTree(t) && 0 < i < Size(t)
    ensures Size(t) == 1 + Size(t.children)
    ensures Flatten(t, 1)[i] == Flatten(t.children, 2)[i - 1]
    ensures NodePath(t, i) == PathString(PathAt(t.children, [], i - 1))
  {
    FlattenSingle(t.data, t.children, 1);
  }

  lemma {:induction false} GuestListed(t: Forest)
    requires ValidTree(t)
    ensures Levelled(Flatten(t, 1))
    ensures Select(Flatten(t, 1), GuestListMask(Flatten(t, 1)))
      == [FdtNode(t.data, 1)] + Select(Flatten(t.children, 2), NonCpuMask(t.children))
  {
    var nodes := Flatten(t, 1);
    var keep := GuestListMask(nodes);
    SelectTree(t, keep);
    FlattenSingle(t.data, t.children, 1);
    forall i | 0 < i < Size(t) ensures keep[i] == NonCpuMask(t.children)[i - 1] {
      BuiltPathIsNodePath(t, i);
      BelowRoot(t, i);
      NodeAt(t, i);
    }
    assert keep[1..] == NonCpuMask(t.children);
  }

  lemma {:induction false} HostListed(t: Forest, cpus: seq<nat>)
    requires ValidTree(t)
    ensures Levelled(Flatten(t, 1))
    ensures Select(Flatten(t, 1), HostListMask(Flatten(t, 1), cpus))
      == Select(Flatten(t.children, 2), CpuMask(t.children, cpus))
  {
    var nodes := Flatten(t, 1);
    var take := HostListMask(nodes, cpus);
    SelectTree(t, take);
    HostListedRoot(t, cpus);
    forall i | 0 < i < Size(t) ensures take[i] == CpuMask(t.children, cpus)[i - 1] {
      HostListedAt(t, cpus, i);
    }
    assert take[1..] == CpuMask(t.children, cpus);
    EmptyAppend(Select(Flatten(t.children, 2), CpuMask(t.children, cpus)));
  }

  lemma {:induction false} HostListedAt(t: Forest, cpus: seq<nat>, i: nat)
    requires ValidTree(t) && 0 < i < Size(t) && Levelled(Flatten(t, 1))
    ensures Size(t) == 1 + Size(t.children)
    ensures HostListMask(Flatten(t, 1), cpus)[i] == CpuMask(t.children, cpus)[i - 1]
  {
    BelowRoot(t, i);
    ListedPathIs(t, i);
    MasksAgree(Flatten(t, 1), t.children, cpus, i, NodePath(t, i));
  }

  lemma {:induction false} ListedPathIs(t: Forest, i: nat)
    requires IsTree(t) && i < Size(t) && Levelled(Flatten(t, 1))
    ensures ListedPath(Flatten(t, 1), i) == NodePath(t, i)
  {
    BuiltPathIsNodePath(t, i);
  }

  lemma {:induction false} MasksAgree(nodes: seq<FdtNode>, f: Forest, cpus: seq<nat>, i: nat, path: string)
    requires Levelled(nodes) && 0 < i < |nodes| && |nodes| == 1 + Size(f) && ListedPath(nodes, i) == path
    requires nodes[i] == Flatten(f, 2)[i - 1] && path == PathString(PathAt(f, [], i - 1))
    ensures HostListMask(nodes, cpus)[i] == CpuMask(f, cpus)[i - 1]
  {
    HostMaskAt(nodes, cpus, i, path);
  }

  lemma {:induction false} HostListedRoot(t: Forest, cpus: seq<nat>)
    requires ValidTree(t) && Levelled(Flatten(t, 1))
    ensures !HostListMask(Flatten(t, 1), cpus)[0]
  {
    ListedPathIs(t, 0);
    HostMaskAt(Flatten(t, 1), cpus, 0, ROOT);
    RootIsNoCpu(t.data, cpus);
  }

  lemma {:induction false} HostMaskAt(nodes: seq<FdtNode>, cpus: seq<nat>, i: nat, path: string)
    requires Levelled(nodes) && i < |nodes| && ListedPath(nodes, i) == path
    ensures HostListMask(nodes, cpus)[i] == HostKeeps(nodes[i], path, cpus)
  {
  }

  lemma {:induction false} RootIsNoCpu(d: NodeData, cpus: seq<nat>)
    ensures !HostKeeps(FdtNode(d, 1), ROOT, cpus)
  {
  }

  /** No kept host node lies below an unwanted cpu node. */
  ghost predicate CpusQuiet(f: Forest, cpus: seq<nat>) {
    forall i: nat, j: nat :: IsAncestor(f, i, j) && CpuMask(f, cpus)[j] ==>
      NeedCpuNode(cpus, Flatten(f, 2)[i].data, PathString(PathAt(f, [], i)))
  }

  lemma {:induction false} ForestAncestor(f: Forest, i: nat, j: nat)
    requires ValidNames(f) && IsAncestor(f, i, j)
    ensures CPUS <= PathString(PathAt(f, [], i)) <==> CPUS <= PathString(PathAt(f, [], j))
  {
    AncestorIsPrefix(f, [], i, j);
    PathAtValid(f, [], i);
    PathAtValid(f, [], j);
    PathShape(f, [], i);
    SameSideOfCpus(PathAt(f, [], i), PathAt(f, [], j));
  }

  /** Dropping everything under "/cpus" needs no assumption: it never orphans a node. */
  lemma {:induction false} NonCpuClosed(f: Forest)
    requires ValidNames(f)
    ensures Closed(f, NonCpuMask(f))
  {
    forall i: nat, j: nat | IsAncestor(f, i, j) && NonCpuMask(f)[j] ensures NonCpuMask(f)[i] {
      ForestAncestor(f, i, j);
    }
  }

  lemma {:induction false} CpuClosedIff(f: Forest, cpus: seq<nat>)
    requires ValidNames(f)
    ensures Closed(f, CpuMask(f, cpus)) <==> CpusQuiet(f, cpus)
  {
    forall i: nat, j: nat | IsAncestor(f, i, j) && CpuMask(f, cpus)[j]
      ensures CpuMask(f, cpus)[i] <==> NeedCpuNode(cpus, Flatten(f, 2)[i].data, PathString(PathAt(f, [], i)))
    {
      ForestAncestor(f, i, j);
    }
  }

  lemma {:induction false} ListedTogether(root: NodeData, a: Forest, b: Forest)
    ensures Flatten(Node(root, Append(a, b), Nil), 1) == [FdtNode(root, 1)] + Flatten(a, 2) + Flatten(b, 2)
  {
    FlattenSingle(root, Append(a, b), 1);
    FlattenAppend(a, b, 2);
    Assoc([FdtNode(root, 1)], Flatten(a, 2), Flatten(b, 2));
  }

  /** A root, a closed selection and any selection: written as one tree iff the second is closed too. */
  lemma {:induction false} TwoForests(root: NodeData, a: Forest, ka: seq<bool>, b: Forest, kb: seq<bool>)
    requires root.name == ROOT && NoRoot(a) && NoRoot(b)
    requires |ka| == Size(a) && |kb| == Size(b) && Closed(a, ka)
    ensures Finish(Emit(START, [FdtNode(root, 1)] + Select(Flatten(a, 2), ka) + Select(Flatten(b, 2), kb)))
      == Some(Serialise(Node(root, Append(Prune(a, ka), Prune(b, kb)), Nil)))
      <==> Closed(b, kb)
  {
    var pa, pb := Prune(a, ka), Prune(b, kb);
    var listed := [FdtNode(root, 1)] + Select(Flatten(a, 2), ka) + Select(Flatten(b, 2), kb);
    SelectIsPrune(a, ka, 2);
    if Closed(b, kb) {
      SelectIsPrune(b, kb, 2);
      ListedTogether(root, pa, pb);
      PruneNoRoot(a, ka);
      PruneNoRoot(b, kb);
      AppendNoRoot(pa, pb);
      EmitTree(Node(root, Append(pa, pb), Nil));
    } else {
      PruneSize(b, kb);
      SelectCount(Flatten(b, 2), kb);
      SizeAppend(pa, pb);
      DifferentCount(listed, Node(root, Append(pa, pb), Nil));
    }
  }

  /**
   * End to end: the stream is the guest tree without its "/cpus" paths, followed below the root by the
   * host's wanted cpu nodes, iff no wanted host node lies below an unwanted cpu node.
   */
  lemma {:induction false} HostCpusIff(guest: Forest, host: Forest, cpus: seq<nat>)
    requires ValidTree(guest) && ValidTree(host)
    ensures Levelled(Flatten(guest, 1)) && Levelled(Flatten(host, 1))
    ensures var g, h := Flatten(guest, 1), Flatten(host, 1);
      Finish(HostEmit(Emit(START, Select(g, GuestListMask(g))), Select(h, HostListMask(h, cpus))))
        == Some(Serialise(WithHostCpus(guest, host, cpus)))
      <==> CpusQuiet(host.children, cpus)
  {
    GuestListed(guest);
    HostListed(host, cpus);
    var a := [FdtNode(guest.data, 1)] + Select(Flatten(guest.children, 2), NonCpuMask(guest.children));
    var b := Select(Flatten(host.children, 2), CpuMask(host.children, cpus));
    NoRootSelected(host.children, 2, CpuMask(host.children, cpus));
    HostEmitIsEmit(Emit(START, a), b);
    EmitAppend(START, a, b);
    NonCpuClosed(guest.children);
    CpuClosedIff(host.children, cpus);
    TwoForests(guest.data, guest.children, NonCpuMask(guest.children),
               host.children, CpuMask(host.children, cpus));
  }

  /** In every case: a panic if a level is jumped over, else the one tree that the nodes written list. */
  lemma {:induction false} CpuStream(guest: Forest, host: Forest, cpus: seq<nat>)
    requires ValidTree(guest) && ValidTree(host)
    ensures Levelled(Flatten(guest, 1)) && Levelled(Flatten(host, 1))
    ensures var g, h := Flatten(guest, 1), Flatten(host, 1);
      var kept := Select(Flatten(guest.children, 2), NonCpuMask(guest.children))
                + Select(Flatten(host.children, 2), CpuMask(host.children, cpus));
      && (NoJump(1, kept) ==> Listable(kept, 2))
      && Finish(HostEmit(Emit(START, Select(g, GuestListMask(g))), Select(h, HostListMask(h, cpus)))) ==
         if NoJump(1, kept) then Some(Serialise(Node(guest.data, Build(kept, 2), Nil))) else None
  {
    GuestListed(guest);
    HostListed(host, cpus);
    var root := [FdtNode(guest.data, 1)];
    var a := Select(Flatten(guest.children, 2), NonCpuMask(guest.children));
    var b := Select(Flatten(host.children, 2), CpuMask(host.children, cpus));
    NoRootSelected(guest.children, 2, NonCpuMask(guest.children));
    NoRootSelected(host.children, 2, CpuMask(host.children, cpus));
    HostEmitIsEmit(Emit(START, root + a), b);
    EmitAppend(START, root + a, b);
    Assoc(root, a, b);
    StreamOfListing(root[0], a + b);
  }
}
