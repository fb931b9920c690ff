/** Trees on which `update_fdt` and `update_cpu_node` do not write the kept part of the tree. */
module CutOffUpdates {
  import opened Basics
  import opened CpuNodes
  import opened CutOff
  import opened DeviceTree
  import opened FdtStream
  import opened GuestFdt
  import opened Listings
  import opened MemoryNode
  import opened NodePaths

  // ---- update_fdt

  const TOP := FdtNode(Plain(ROOT), 1)
  const MEMORY_ENTRY := FdtNode(Plain(MEMORY_NODE), 2)
  const CHILD_ENTRY := FdtNode(Plain(CHILD), 3)
  const SIBLING_ENTRY := FdtNode(Plain(SIBLING), 2)

  lemma {:induction false} NotChosen()
    ensures Rewrite(Plain(ROOT)) == Plain(ROOT) && Rewrite(Plain(MEMORY_NODE)) == Plain(MEMORY_NODE)
    ensures Rewrite(Plain(CHILD)) == Plain(CHILD) && Rewrite(Plain(SIBLING)) == Plain(SIBLING)
  {
    assert CHOSEN[0] == 'c' && ROOT[0] == '/' && MEMORY_NODE[0] == 'm' && CHILD[0] == 'd' && SIBLING[0] == 'a';
  }

  lemma {:induction false} BareListed()
    ensures Flatten(BARE, 1) == [TOP, MEMORY_ENTRY, CHILD_ENTRY]
  {
    MemoryTreeIs();
    FlattenSingle(Plain(ROOT), MEMORY_TREE, 1);
  }

  lemma {:induction false} KeptOfBare()
    ensures Select(Rewritten(Flatten(BARE, 1)), NonMemoryMask(Flatten(BARE, 1))) == [TOP] + [CHILD_ENTRY]
  {
    BareListed();
    Names();
    NotChosen();
    var nodes := [TOP, MEMORY_ENTRY, CHILD_ENTRY];
    assert Rewritten(nodes) == nodes;
    assert |ROOT| < |MEMORY| && NonMemoryMask(nodes) == [true, false, true];
    SelectOuter(TOP, MEMORY_ENTRY, CHILD_ENTRY);
  }

  /** root{memory@0{d}}: the memory node is skipped, `d` jumps over its level, and the closing assertion fails. */
  lemma {:induction false} BareUpdatePanics(regions: seq<Region>)
    ensures IsTree(BARE) && !MemoryQuiet(BARE)
    ensures var nodes := Flatten(BARE, 1);
      FinishWith(Emit(START, Select(Rewritten(nodes), NonMemoryMask(nodes))), MemoryEvents(regions)) == None
  {
    BareIs();
    KeptOfBare();
    Names();
    StreamWithMemory(TOP, [CHILD_ENTRY], Node(MemoryData(regions), Nil, Nil));
    assert !NoJump(1, [CHILD_ENTRY]);
    UpdatedTreeIff(BARE, regions);
  }

  lemma {:induction false} BesideListed()
    ensures Flatten(BESIDE, 1) == [TOP, SIBLING_ENTRY, MEMORY_ENTRY, CHILD_ENTRY]
  {
    BesideIs();
  }

  lemma {:induction false} KeptOfBeside()
    ensures Select(Rewritten(Flatten(BESIDE, 1)), NonMemoryMask(Flatten(BESIDE, 1)))
      == [TOP] + [SIBLING_ENTRY, CHILD_ENTRY]
  {
    BesideListed();
    Names();
    NotChosen();
    var nodes := [TOP, SIBLING_ENTRY, MEMORY_ENTRY, CHILD_ENTRY];
    assert Rewritten(nodes) == nodes;
    assert |ROOT| < |MEMORY| && NonMemoryMask(nodes) == [true, true, false, true];
    assert nodes[1..] == [SIBLING_ENTRY, MEMORY_ENTRY, CHILD_ENTRY];
    assert [true, true, false, true][1..] == [true, false, true];
    SelectOuter(SIBLING_ENTRY, MEMORY_ENTRY, CHILD_ENTRY);
  }

  /** root{a, memory@0{d}}: the closing assertion holds, and `d` has become a child of `a`. */
  lemma {:induction false} BesideUpdateMisplaces(regions: seq<Region>)
    ensures IsTree(BESIDE)
    ensures var nodes, m := Flatten(BESIDE, 1), Node(MemoryData(regions), Nil, Nil);
      FinishWith(Emit(START, Select(Rewritten(nodes), NonMemoryMask(nodes))), MemoryEvents(regions))
        == Some(Serialise(Node(Plain(ROOT), Node(Plain(SIBLING), Leaf(CHILD), m), Nil)))
  {
    BesideIs();
    KeptOfBeside();
    AdoptedStream(Node(MemoryData(regions), Nil, Nil));
  }

  lemma {:induction false} AdoptedStream(m: Forest)
    ensures FinishWith(Emit(START, [TOP] + [SIBLING_ENTRY, CHILD_ENTRY]), Serialise(m))
      == Some(Serialise(Node(Plain(ROOT), Node(Plain(SIBLING), Leaf(CHILD), m), Nil)))
  {
    Names();
    Adopted();
    StreamWithMemory(TOP, [SIBLING_ENTRY, CHILD_ENTRY], m);
    assert Append(Node(Plain(SIBLING), Leaf(CHILD), Nil), m) == Node(Plain(SIBLING), Leaf(CHILD), m);
  }

  // ---- update_cpu_node

  const CPUS_NAME: string := "cpus"
  const CPU0: string := "cpu@0"
  const CPU1: string := "cpu@1"
  const INNER: string := "x"

  /** A node whose `reg` starts with 0. */
  function AtZero(name: string): NodeData {
    NodeData(name, Some(0), [])
  }

  const INNER_TREE := Node(AtZero(INNER), Nil, Nil)

  /** cpu@1{x}, where only `x` has the wanted address. */
  const CPU1_TREE := Node(Plain(CPU1), INNER_TREE, Nil)

  /** root{cpus{cpu@1{x}}} */
  const ONE_CPU := Node(Plain(ROOT), Node(Plain(CPUS_NAME), CPU1_TREE, Nil), Nil)

  /** root{cpus{cpu@0, cpu@1{x}}} */
  const TWO_CPUS := Node(Plain(ROOT), Node(Plain(CPUS_NAME), Node(AtZero(CPU0), Nil, CPU1_TREE), Nil), Nil)

  /** A guest of which only the root is left. */
  const EMPTY_GUEST := Leaf(ROOT)

  const CPUS_ENTRY := FdtNode(Plain(CPUS_NAME), 2)
  const CPU0_ENTRY := FdtNode(AtZero(CPU0), 3)
  const CPU1_ENTRY := FdtNode(Plain(CPU1), 3)
  const INNER_ENTRY := FdtNode(AtZero(INNER), 4)

  lemma {:induction false} CpuNames()
    ensures ValidName(CPUS_NAME) && ValidName(CPU0) && ValidName(CPU1) && ValidName(INNER)
    ensures CPU0 != CPU1 && CPUS_NAME != ROOT && CPU0 != ROOT && CPU1 != ROOT && INNER != ROOT
  {
    assert CPU0[4] == '0' && CPU1[4] == '1';
    assert CPUS_NAME[0] == 'c' && CPU0[0] == 'c' && CPU1[0] == 'c' && INNER[0] == 'x' && ROOT[0] == '/';
  }

  lemma {:induction false} TwoNames(a: string, b: string)
    requires ValidName(a)
    ensures PathString([a, b]) == "/" + (a + "/" + b)
  {
    var p := [a, b];
    assert p != [ROOT] && p[1..] == [b] && Join(p[1..], "/") == b;
  }

  lemma {:induction false} ThreeNames(a: string, b: string, c: string)
    ensures PathString([a, b, c]) == "/" + (a + "/" + (b + "/" + c))
  {
    var p := [a, b, c];
    assert p != [ROOT] && p[1..] == [b, c] && p[1..][1..] == [c];
    assert Join(p[1..][1..], "/") == c;
    assert Join(p[1..], "/") == b + "/" + c;
  }

  lemma {:induction false} CpuPaths()
    ensures CPUS <= PathString([CPUS_NAME]) && !(CPU_AT <= PathString([CPUS_NAME]))
    ensures CPUS <= PathString([CPUS_NAME, CPU0]) && CPUS <= PathString([CPUS_NAME, CPU1])
    ensures CPU_AT <= PathString([CPUS_NAME, CPU1])
    ensures CPUS <= PathString([CPUS_NAME, CPU1, INNER])
  {
    CpuNames();
    assert PathString([CPUS_NAME]) == "/cpus" by {
      assert [CPUS_NAME][0] == CPUS_NAME && [ROOT][0] == ROOT && Join([CPUS_NAME], "/") == CPUS_NAME;
    }
    TwoNames(CPUS_NAME, CPU0);
    TwoNames(CPUS_NAME, CPU1);
    ThreeNames(CPUS_NAME, CPU1, INNER);
    assert PathString([CPUS_NAME, CPU0]) == "/cpus/cpu@0";
    assert PathString([CPUS_NAME, CPU1]) == "/cpus/cpu@1";
    assert PathString([CPUS_NAME, CPU1, INNER]) == "/cpus/cpu@1/x";
    assert "/cpus/cpu@0"[..5] == CPUS && "/cpus/cpu@1"[..5] == CPUS && "/cpus/cpu@1/x"[..5] == CPUS;
    assert "/cpus/cpu@1"[..10] == CPU_AT;
  }

  lemma {:induction false} Cpu1TreeIs(prefix: seq<string>)
    ensures Size(CPU1_TREE) == 2 && ValidNames(CPU1_TREE) && NoRoot(CPU1_TREE)
    ensures TopNames(CPU1_TREE) == {CPU1} && Flatten(CPU1_TREE, 3) == [CPU1_ENTRY, INNER_ENTRY]
    ensures PathAt(CPU1_TREE, prefix, 0) == prefix + [CPU1]
    ensures PathAt(CPU1_TREE, prefix, 1) == prefix + [CPU1] + [INNER]
    ensures IsAncestor(CPU1_TREE, 0, 1)
  {
    CpuNames();
    assert Size(INNER_TREE) == 1 && ValidNames(INNER_TREE) && NoRoot(INNER_TREE);
    FlattenSingle(AtZero(INNER), Nil, 4);
    FlattenSingle(Plain(CPU1), INNER_TREE, 3);
  }

  lemma {:induction false} OneCpuIs()
    ensures ValidTree(ONE_CPU) && Size(ONE_CPU.children) == 3 && IsAncestor(ONE_CPU.children, 1, 2)
    ensures Flatten(ONE_CPU.children, 2) == [CPUS_ENTRY, CPU1_ENTRY, INNER_ENTRY]
    ensures PathAt(ONE_CPU.children, [], 0) == [CPUS_NAME]
    ensures PathAt(ONE_CPU.children, [], 1) == [CPUS_NAME, CPU1]
    ensures PathAt(ONE_CPU.children, [], 2) == [CPUS_NAME, CPU1, INNER]
  {
    CpuNames();
    Cpu1TreeIs([CPUS_NAME]);
    FlattenSingle(Plain(CPUS_NAME), CPU1_TREE, 2);
  }

  /** What is above `x` is dropped, `x` is kept. */
  lemma {:induction false} OneCpuMask()
    ensures CpuMask(ONE_CPU.children, [0]) == [true, false, true]
  {
    OneCpuIs();
    CpuPaths();
    assert 0 in [0];
  }

  lemma {:induction false} EmptyGuestIs()
    ensures ValidTree(EMPTY_GUEST) && EMPTY_GUEST.children == Nil
    ensures Select(Flatten(EMPTY_GUEST.children, 2), NonCpuMask(EMPTY_GUEST.children)) == []
  {
  }

  /** root{cpus{cpu@1{x}}} with the address of `x` alone wanted: `x` jumps over a level, and the source panics. */
  lemma {:induction false} OneCpuPanics()
    ensures ValidTree(EMPTY_GUEST) && ValidTree(ONE_CPU) && !CpusQuiet(ONE_CPU.children, [0])
    ensures Levelled(Flatten(EMPTY_GUEST, 1)) && Levelled(Flatten(ONE_CPU, 1))
    ensures var g, h := Flatten(EMPTY_GUEST, 1), Flatten(ONE_CPU, 1);
      Finish(HostEmit(Emit(START, Select(g, GuestListMask(g))), Select(h, HostListMask(h, [0])))) == None
  {
    EmptyGuestIs();
    OneCpuIs();
    OneCpuMask();
    CpuStream(EMPTY_GUEST, ONE_CPU, [0]);
    SelectOuter(CPUS_ENTRY, CPU1_ENTRY, INNER_ENTRY);
    var kept := [CPUS_ENTRY, INNER_ENTRY];
    EmptyAppend(kept);
    assert kept[1..] == [INNER_ENTRY] && !NoJump(1, kept);
    HostCpusIff(EMPTY_GUEST, ONE_CPU, [0]);
  }

  lemma {:induction false} TwoCpusIs()
    ensures ValidTree(TWO_CPUS) && Size(TWO_CPUS.children) == 4
    ensures Flatten(TWO_CPUS.children, 2) == [CPUS_ENTRY, CPU0_ENTRY, CPU1_ENTRY, INNER_ENTRY]
    ensures PathAt(TWO_CPUS.children, [], 0) == [CPUS_NAME]
    ensures PathAt(TWO_CPUS.children, [], 1) == [CPUS_NAME, CPU0]
    ensures PathAt(TWO_CPUS.children, [], 2) == [CPUS_NAME, CPU1]
    ensures PathAt(TWO_CPUS.children, [], 3) == [CPUS_NAME, CPU1, INNER]
  {
    CpuNames();
    var f := Node(AtZero(CPU0), Nil, CPU1_TREE);
    BothCpusAre(f);
    FlattenSingle(Plain(CPUS_NAME), f, 2);
  }

  lemma {:induction false} BothCpusAre(f: Forest)
    requires f == Node(AtZero(CPU0), Nil, CPU1_TREE)
    ensures Size(f) == 3 && ValidNames(f) && NoRoot(f)
    ensures Flatten(f, 3) == [CPU0_ENTRY, CPU1_ENTRY, INNER_ENTRY]
    ensures PathAt(f, [CPUS_NAME], 0) == [CPUS_NAME, CPU0] && PathAt(f, [CPUS_NAME], 1) == [CPUS_NAME, CPU1]
    ensures PathAt(f, [CPUS_NAME], 2) == [CPUS_NAME, CPU1, INNER]
  {
    CpuNames();
    Cpu1TreeIs([CPUS_NAME]);
    assert Flatten(f, 3) == [CPU0_ENTRY] + Flatten(Nil, 4) + [CPU1_ENTRY, INNER_ENTRY];
    assert PathAt(f, [CPUS_NAME], 1) == PathAt(CPU1_TREE, [CPUS_NAME], 0);
    assert PathAt(f, [CPUS_NAME], 2) == PathAt(CPU1_TREE, [CPUS_NAME], 1);
  }

  lemma {:induction false} TwoCpusMask()
    ensures CpuMask(TWO_CPUS.children, [0]) == [true, true, false, true]
  {
    TwoCpusIs();
    CpuPaths();
    assert 0 in [0];
  }

  /** cpus{cpu@0{x}} */
  const MISPLACED := Node(Plain(CPUS_NAME), Node(AtZero(CPU0), INNER_TREE, Nil), Nil)

  lemma {:induction false} MisplacedListed()
    ensures Flatten(MISPLACED, 2) == [CPUS_ENTRY] + ([CPU0_ENTRY] + [INNER_ENTRY])
  {
    FlattenSingle(AtZero(INNER), Nil, 4);
    EmptyAppend([INNER_ENTRY]);
    FlattenSingle(AtZero(CPU0), INNER_TREE, 3);
    FlattenSingle(Plain(CPUS_NAME), Node(AtZero(CPU0), INNER_TREE, Nil), 2);
  }

  lemma {:induction false} MisplacedIs(kept: seq<FdtNode>)
    requires kept == Flatten(MISPLACED, 2)
    ensures NoJump(1, kept) && Listable(kept, 2) && Build(kept, 2) == MISPLACED
  {
    BuildIsUnique(MISPLACED, 2);
  }

  lemma {:induction false} KeptOfTwoCpus()
    ensures Size(TWO_CPUS.children) == 4
    ensures Select(Flatten(TWO_CPUS.children, 2), CpuMask(TWO_CPUS.children, [0])) == Flatten(MISPLACED, 2)
  {
    TwoCpusIs();
    TwoCpusMask();
    MisplacedListed();
    var nodes, mask := [CPUS_ENTRY, CPU0_ENTRY, CPU1_ENTRY, INNER_ENTRY], [true, true, false, true];
    assert nodes[1..] == [CPU0_ENTRY, CPU1_ENTRY, INNER_ENTRY] && mask[1..] == [true, false, true];
    SelectOuter(CPU0_ENTRY, CPU1_ENTRY, INNER_ENTRY);
    assert Select(nodes, mask) == [CPUS_ENTRY] + [CPU0_ENTRY, INNER_ENTRY];
  }

  /** root{cpus{cpu@0, cpu@1{x}}}: the closing assertion holds, and `x` has become a child of `cpu@0`. */
  lemma {:induction false} TwoCpusMisplaces()
    ensures ValidTree(EMPTY_GUEST) && ValidTree(TWO_CPUS)
    ensures Levelled(Flatten(EMPTY_GUEST, 1)) && Levelled(Flatten(TWO_CPUS, 1))
    ensures var g, h := Flatten(EMPTY_GUEST, 1), Flatten(TWO_CPUS, 1);
      Finish(HostEmit(Emit(START, Select(g, GuestListMask(g))), Select(h, HostListMask(h, [0]))))
        == Some(Serialise(Node(Plain(ROOT), MISPLACED, Nil)))
  {
    EmptyGuestIs();
    TwoCpusIs();
    KeptOfTwoCpus();
    CpuStream(EMPTY_GUEST, TWO_CPUS, [0]);
    EmptyAppend(Flatten(MISPLACED, 2));
    MisplacedIs(Flatten(MISPLACED, 2));
  }
}
