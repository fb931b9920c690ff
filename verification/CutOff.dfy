/** Host trees on which `crate_guest_fdt` does not write the kept part of the tree. */
module CutOff {
  import opened Basics
  import opened DeviceTree
  import opened FdtStream
  import opened NodePaths
  import opened Listings
  import opened GuestFdt

  const MEMORY_NODE: string := "memory@0"
  const CHILD: string := "d"
  const DEVICE: string := "/memory@0/d"
  const SIBLING: string := "a"
  const SIBLING_PATH: string := "/a"

  function Plain(name: string): NodeData {
    NodeData(name, None, [])
  }

  function Leaf(name: string): Forest {
    Node(Plain(name), Nil, Nil)
  }

  /** memory@0{d} */
  const MEMORY_TREE := Node(Plain(MEMORY_NODE), Leaf(CHILD), Nil)

  /** root{memory@0{d}} */
  const BARE := Node(Plain(ROOT), MEMORY_TREE, Nil)

  /** root{a, memory@0{d}} */
  const BESIDE := Node(Plain(ROOT), Node(Plain(SIBLING), Nil, MEMORY_TREE), Nil)

  lemma {:induction false} Names()
    ensures ValidName(MEMORY_NODE) && ValidName(CHILD) && ValidName(SIBLING)
    ensures MEMORY <= MEMORY_NODE && !(MEMORY <= CHILD) && !(MEMORY <= SIBLING)
    ensures SIBLING != MEMORY_NODE && MEMORY_NODE != ROOT && CHILD != ROOT && SIBLING != ROOT
  {
    assert MEMORY_NODE[..6] == MEMORY;
    assert MEMORY_NODE[0] == 'm' && CHILD[0] == 'd' && SIBLING[0] == 'a' && ROOT[0] == '/';
  }

  lemma {:induction false} Paths()
    ensures PathString([MEMORY_NODE, CHILD]) == DEVICE && PathString([SIBLING]) == SIBLING_PATH
    ensures !(CPUS <= DEVICE) && !(CPUS <= SIBLING_PATH)
  {
    var p := [MEMORY_NODE, CHILD];
    assert p[1..] == [CHILD];
    assert Join(p[1..], "/") == CHILD;
    assert DEVICE == "/" + (MEMORY_NODE + "/" + CHILD);
    assert SIBLING[0] == 'a' && ROOT[0] == '/' && [SIBLING][0] == SIBLING;
    assert DEVICE[1] == 'm' && CPUS[1] == 'c' && SIBLING_PATH[1] == 'a';
  }

  lemma {:induction false} MemoryTreeIs()
    ensures Size(MEMORY_TREE) == 2 && ValidNames(MEMORY_TREE) && NoRoot(MEMORY_TREE)
    ensures TopNames(MEMORY_TREE) == {MEMORY_NODE}
    ensures Flatten(MEMORY_TREE, 2) == [FdtNode(Plain(MEMORY_NODE), 2), FdtNode(Plain(CHILD), 3)]
    ensures PathAt(MEMORY_TREE, [], 1) == [MEMORY_NODE, CHILD] && IsAncestor(MEMORY_TREE, 0, 1)
  {
    Names();
    assert Size(Leaf(CHILD)) == 1 && ValidNames(Leaf(CHILD)) && NoRoot(Leaf(CHILD));
    FlattenSingle(Plain(CHILD), Nil, 3);
    FlattenSingle(Plain(MEMORY_NODE), Leaf(CHILD), 2);
    assert PathAt(Leaf(CHILD), [MEMORY_NODE], 0) == [MEMORY_NODE] + [CHILD];
  }

  lemma {:induction false} BareIs()
    ensures ValidTree(BARE) && Size(BARE) == 3 && NodePath(BARE, 2) == DEVICE && IsAncestor(BARE, 1, 2)
    ensures Flatten(BARE, 1)[1].data == Plain(MEMORY_NODE) && Flatten(BARE, 1)[2].data == Plain(CHILD)
  {
    MemoryTreeIs();
    Paths();
    FlattenSingle(Plain(ROOT), MEMORY_TREE, 1);
  }

  /** The device is kept and the memory node above it is not. */
  lemma {:induction false} BareMask(cpus: seq<nat>)
    ensures ValidTree(BARE) && GuestMask(BARE, [DEVICE], cpus) == [true, false, true]
  {
    BareIs();
    BareKept(cpus);
    Names();
    NodeAt(BARE, 0);
    BlockedIsSkipped(BARE, [DEVICE], cpus, 1);
  }

  lemma {:induction false} BareKept(cpus: seq<nat>)
    ensures ValidTree(BARE) && Size(BARE) == 3 && GuestMask(BARE, [DEVICE], cpus)[2]
  {
    BareIs();
    Names();
    Paths();
    DeviceIsKept(BARE, [DEVICE], cpus, [2], 0);
  }

  /** root{memory@0{d}} with the device /memory@0/d: nothing is written, the closing assertion fails. */
  lemma {:induction false} BarePanics(cpus: seq<nat>)
    ensures ValidTree(BARE) && Levelled(Flatten(BARE, 1)) && NodePath(BARE, 2) == DEVICE
    ensures !GuardsQuiet(BARE, [DEVICE], cpus)
    ensures var nodes := Flatten(BARE, 1);
      Finish(Emit(START, Select(nodes, ListMask(nodes, [DEVICE], cpus)))) == None
  {
    BareIs();
    BareMask(cpus);
    MemoryTreeIs();
    GuestStream(BARE, [DEVICE], cpus);
    var child := FdtNode(Plain(CHILD), 3);
    assert Select(Flatten(MEMORY_TREE, 2), [false, true]) == [child] by {
      SelectSecond(FdtNode(Plain(MEMORY_NODE), 2), child);
    }
    assert GuestMask(BARE, [DEVICE], cpus)[1..] == [false, true];
    assert !NoJump(1, [child]);
    GuestTreeIff(BARE, [DEVICE], cpus);
  }

  lemma {:induction false} SelectSecond(x: FdtNode, y: FdtNode)
    ensures Select([x, y], [false, true]) == [y]
  {
    assert [x, y][1..] == [y] && [false, true][1..] == [true];
    assert Select([y], [true]) == [y] + Select([y][1..], [true][1..]);
  }

  // ---- the silent case

  lemma {:induction false} BesideIs()
    ensures ValidTree(BESIDE) && Size(BESIDE) == 4
    ensures NodePath(BESIDE, 1) == SIBLING_PATH && NodePath(BESIDE, 3) == DEVICE && IsAncestor(BESIDE, 2, 3)
    ensures Flatten(BESIDE.children, 2)
      == [FdtNode(Plain(SIBLING), 2), FdtNode(Plain(MEMORY_NODE), 2), FdtNode(Plain(CHILD), 3)]
    ensures Flatten(BESIDE, 1) == [FdtNode(Plain(ROOT), 1)] + Flatten(BESIDE.children, 2)
  {
    MemoryTreeIs();
    Names();
    Paths();
    var f := BESIDE.children;
    assert f == Node(Plain(SIBLING), Nil, MEMORY_TREE) && Size(f) == 3;
    assert Flatten(f, 2) == [FdtNode(Plain(SIBLING), 2)] + Flatten(Nil, 3) + Flatten(MEMORY_TREE, 2);
    assert PathAt(f, [], 0) == [SIBLING] && PathAt(f, [], 2) == PathAt(MEMORY_TREE, [], 1);
    assert IsAncestor(f, 1, 2) == IsAncestor(MEMORY_TREE, 0, 1);
    FlattenSingle(Plain(ROOT), f, 1);
  }

  lemma {:induction false} BesideMask(cpus: seq<nat>)
    ensures ValidTree(BESIDE) && GuestMask(BESIDE, [SIBLING_PATH, DEVICE], cpus) == [true, true, false, true]
  {
    BesideIs();
    BesideKept(cpus, 1, 0);
    BesideKept(cpus, 3, 1);
    Names();
    NodeAt(BESIDE, 0);
    assert Flatten(BESIDE, 1)[2] == FdtNode(Plain(MEMORY_NODE), 2);
    BlockedIsSkipped(BESIDE, [SIBLING_PATH, DEVICE], cpus, 2);
  }

  lemma {:induction false} BesideKept(cpus: seq<nat>, i: nat, k: nat)
    requires (i == 1 && k == 0) || (i == 3 && k == 1)
    ensures ValidTree(BESIDE) && Size(BESIDE) == 4 && GuestMask(BESIDE, [SIBLING_PATH, DEVICE], cpus)[i]
  {
    BesideIs();
    Names();
    Paths();
    assert Flatten(BESIDE, 1)[i].data == Plain(if i == 1 then SIBLING else CHILD);
    DeviceIsKept(BESIDE, [SIBLING_PATH, DEVICE], cpus, [1, 3], k);
  }

  /** A device that is not named like memory and not below the cpus is kept. */
  lemma {:induction false} DeviceIsKept(t: Forest, names: seq<string>, cpus: seq<nat>, devices: seq<nat>, k: nat)
    requires ValidTree(t) && |devices| == |names| && k < |names| && 0 < devices[k]
    requires forall j :: 0 <= j < |names| ==> devices[j] < Size(t) && names[j] == NodePath(t, devices[j])
    requires !(MEMORY <= Flatten(t, 1)[devices[k]].data.name) && !(CPUS <= names[k])
    ensures GuestMask(t, names, cpus)[devices[k]]
  {
    SelectedIff(t, names, cpus, devices, devices[k]);
  }

  /**
   * root{a, memory@0{d}} with the devices /a and /memory@0/d: the closing assertion holds, and `d` has
   * become a child of `a`.
   */
  lemma {:induction false} BesideIsMisplaced(cpus: seq<nat>)
    ensures ValidTree(BESIDE) && Levelled(Flatten(BESIDE, 1))
    ensures NodePath(BESIDE, 1) == SIBLING_PATH && NodePath(BESIDE, 3) == DEVICE
    ensures var nodes := Flatten(BESIDE, 1);
      Finish(Emit(START, Select(nodes, ListMask(nodes, [SIBLING_PATH, DEVICE], cpus))))
        == Some(Serialise(Node(Plain(ROOT), Node(Plain(SIBLING), Leaf(CHILD), Nil), Nil)))
  {
    BesideIs();
    BesideMask(cpus);
    var names := [SIBLING_PATH, DEVICE];
    GuestStream(BESIDE, names, cpus);
    var x, y, z := FdtNode(Plain(SIBLING), 2), FdtNode(Plain(MEMORY_NODE), 2), FdtNode(Plain(CHILD), 3);
    assert GuestMask(BESIDE, names, cpus)[1..] == [true, false, true];
    SelectOuter(x, y, z);
    Adopted();
  }

  lemma {:induction false} SelectOuter(x: FdtNode, y: FdtNode, z: FdtNode)
    ensures Select([x, y, z], [true, false, true]) == [x, z]
  {
    assert [x, y, z][1..] == [y, z] && [true, false, true][1..] == [false, true];
    SelectSecond(y, z);
  }

  lemma {:induction false} Adopted()
    ensures var kept := [FdtNode(Plain(SIBLING), 2), FdtNode(Plain(CHILD), 3)];
      NoJump(1, kept) && Listable(kept, 2) && Build(kept, 2) == Node(Plain(SIBLING), Leaf(CHILD), Nil)
  {
    var f := Node(Plain(SIBLING), Leaf(CHILD), Nil);
    FlattenSingle(Plain(CHILD), Nil, 3);
    FlattenSingle(Plain(SIBLING), Leaf(CHILD), 2);
    BuildIsUnique(f, 2);
  }
}
