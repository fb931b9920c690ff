/** `update_fdt`: boot arguments rewritten, memory nodes replaced by one that lists the VM's regions. */
module MemoryNode {
  import opened Basics
  import opened BootArgs
  import opened Cells
  import opened DeviceTree
  import opened FdtStream
  import opened GuestFdt
  import opened Listings

  // ---- the memory node

  type U64 = x: int | 0 <= x < 0x1_0000_0000_0000_0000

  datatype Region = Region(gpa: U64, size: U64)

  function Split(x: U64): (cells: seq<U32>)
    ensures |cells| == 2
  {
    [x / TWO32, x % TWO32]
  }

  function Merge(hi: U32, lo: U32): U64 {
    var h: int := hi;
    h * TWO32 + lo
  }

  function RegionCells(regions: seq<Region>): (cells: seq<U32>)
    ensures |cells| == 4 * |regions|
  {
    if regions == [] then []
    else RegionCells(regions[..|regions| - 1])
         + Split(regions[|regions| - 1].gpa) + Split(regions[|regions| - 1].size)
  }

  /** How a guest with two address and two size cells reads a `reg` property. */
  function ReadRegions(cells: seq<U32>): seq<Region>
    requires |cells| % 4 == 0
  {
    if cells == [] then []
    else
      var n := |cells|;
      ReadRegions(cells[..n - 4])
      + [Region(Merge(cells[n - 4], cells[n - 3]), Merge(cells[n - 2], cells[n - 1]))]
  }

  function RegValue(regions: seq<Region>): seq<Byte> {
    EncodeCells(RegionCells(regions))
  }

  function MemoryData(regions: seq<Region>): NodeData {
    NodeData(MEMORY, None, [Prop("reg", RegValue(regions)),
                            Prop("device_type", MEMORY_TEXT + [0])])
  }

  /** The text "memory". */
  const MEMORY_TEXT: seq<Byte> := [0x6d, 0x65, 0x6d, 0x6f, 0x72, 0x79]

  lemma {:induction false} CellsReadBack(regions: seq<Region>)
    ensures ReadRegions(RegionCells(regions)) == regions
  {
    if regions != [] {
      var init, last := regions[..|regions| - 1], regions[|regions| - 1];
      CellsReadBack(init);
      MergeSplit(last.gpa);
      MergeSplit(last.size);
      LastCells(RegionCells(init), Split(last.gpa), Split(last.size));
      assert regions == init + [last];
    }
  }

  lemma {:induction false} MergeSplit(x: U64)
    ensures Merge(Split(x)[0], Split(x)[1]) == x
  {
  }

  lemma {:induction false} LastCells(front: seq<U32>, a: seq<U32>, b: seq<U32>)
    requires |a| == 2 && |b| == 2
    ensures var cells, n := front + a + b, |front| + 4;
      && |cells| == n && cells[..n - 4] == front
      && cells[n - 4] == a[0] && cells[n - 3] == a[1] && cells[n - 2] == b[0] && cells[n - 1] == b[1]
  {
  }

  /** The bytes of the `reg` property decode to the VM's regions, in order. */
  lemma {:induction false} RegReadsBack(regions: seq<Region>)
    ensures var reg := RegValue(regions);
      |reg| % 4 == 0 && |DecodeCells(reg)| % 4 == 0 && ReadRegions(DecodeCells(reg)) == regions
  {
    var cells := RegionCells(regions);
    CellsReadBack(regions);
    DecodedCells(RegValue(regions), cells);
  }

  lemma {:induction false} DecodedCells(reg: seq<Byte>, cells: seq<U32>)
    requires reg == EncodeCells(cells)
    ensures |reg| % 4 == 0 && DecodeCells(reg) == cells
  {
    CellsRoundTrip(cells);
  }

  /** `add_memory_node`, between begin and end. */
  method AddMemoryNode(events: seq<Event>, regions: seq<Region>) returns (events': seq<Event>)
    ensures events' == events + PropEvents(MemoryData(regions).props)
  {
    var value: seq<U32> := [];
    for k := 0 to |regions|
      invariant value == RegionCells(regions[..k])
    {
      var gpa: int, size: int := regions[k].gpa, regions[k].size;
      assert regions[..k + 1][..k] == regions[..k];
      value := value + [gpa / TWO32];
      value := value + [gpa % TWO32];
      value := value + [size / TWO32];
      value := value + [size % TWO32];
      assert Split(regions[k].gpa) + Split(regions[k].size)
          == [gpa / TWO32, gpa % TWO32, size / TWO32, size % TWO32];
    }
    assert regions[..|regions|] == regions;
    events' := events + [Property(Prop("reg", EncodeCells(value)))];
    events' := events' + [Property(Prop("device_type", MEMORY_TEXT + [0]))];
  }

  // ---- the chosen node

  /** The text of a string property: what precedes its first NUL. */
  function Text(raw: seq<Byte>): seq<Byte> {
    if raw == [] || raw[0] == 0 then [] else [raw[0]] + Text(raw[1..])
  }

  const CHOSEN: string := "chosen"
  const INITRD: string := "linux,initrd-"
  const BOOTARGS: string := "bootargs"

  /** What a property of the chosen node turns into. */
  function ChosenProp(p: Prop): seq<Prop> {
    if INITRD <= p.name then []
    else if p.name == BOOTARGS then [Prop(p.name, ReplaceRo(Text(p.value)) + [0])]
    else [p]
  }

  function ChosenProps(props: seq<Prop>): seq<Prop> {
    if props == [] then []
    else ChosenProps(props[..|props| - 1]) + ChosenProp(props[|props| - 1])
  }

  function Rewrite(d: NodeData): NodeData {
    if d.name == CHOSEN then d.(props := ChosenProps(d.props)) else d
  }

  lemma {:induction false} ChosenNext(events: seq<Event>, props: seq<Prop>, k: nat)
    requires k < |props|
    ensures events + PropEvents(ChosenProps(props[..k + 1]))
      == events + PropEvents(ChosenProps(props[..k])) + PropEvents(ChosenProp(props[k]))
  {
    assert props[..k + 1][..k] == props[..k] && props[..k + 1][k] == props[k];
    var a, b := ChosenProps(props[..k]), ChosenProp(props[k]);
    assert PropEvents(a + b) == PropEvents(a) + PropEvents(b);
  }

  method CopyProps(events: seq<Event>, d: NodeData) returns (events': seq<Event>)
    ensures events' == events + PropEvents(Rewrite(d).props)
  {
    events' := events;
    if d.name == CHOSEN {
      for k := 0 to |d.props|
        invariant events' == events + PropEvents(ChosenProps(d.props[..k]))
      {
        var p := d.props[k];
        ChosenNext(events, d.props, k);
        if INITRD <= p.name {
        } else if p.name == BOOTARGS {
          events' := events' + [Property(Prop(p.name, ReplaceRo(Text(p.value)) + [0]))];
        } else {
          events' := events' + [Property(p)];
        }
      }
      assert d.props[..|d.props|] == d.props;
    } else {
      for k := 0 to |d.props|
        invariant events' == events + PropEvents(d.props)[..k]
      {
        events' := events' + [Property(d.props[k])];
      }
    }
  }

  method BeginRewritten(events: seq<Event>, d: NodeData) returns (events': seq<Event>)
    ensures events' == events + Opening(Rewrite(d))
  {
    events' := events + [Begin(WriterName(d.name))];
    events' := CopyProps(events', d);
  }

  // ---- the walk

  function Rewritten(nodes: seq<FdtNode>): (r: seq<FdtNode>)
    ensures |r| == |nodes|
  {
    seq(|nodes|, i requires 0 <= i < |nodes| => nodes[i].(data := Rewrite(nodes[i].data)))
  }

  /** Every node that is not named like a memory node. */
  function NonMemoryMask(nodes: seq<FdtNode>): (m: seq<bool>)
    ensures |m| == |nodes|
  {
    seq(|nodes|, i requires 0 <= i < |nodes| => !(MEMORY <= nodes[i].data.name))
  }

  /** Closing every open node, with `memory` written when the level counter passes 1. */
  function FinishWith(w: Walk, memory: seq<Event>): Option<seq<Event>> {
    if w.open != w.last then None
    else if w.last >= 2 then Some(w.events + Ends(w.open - 1) + memory + [End])
    else Some(w.events + Ends(w.open))
  }

  function MemoryEvents(regions: seq<Region>): seq<Event> {
    Serialise(Node(MemoryData(regions), Nil, Nil))
  }

  method CloseAllWithMemory(events: seq<Event>, stack: seq<string>, previous: nat, regions: seq<Region>)
    returns (out: Option<seq<Event>>)
    ensures out == FinishWith(Walk(events, |stack|, previous), MemoryEvents(regions))
  {
    var events', stack', level: int := events, stack, previous;
    ghost var memory := MemoryEvents(regions);
    assert memory == [Begin(MEMORY)] + PropEvents(MemoryData(regions).props) + [End] by {
      assert |MEMORY| != |ROOT| && Serialise(Nil) == [];
    }
    while stack' != []
      invariant |stack'| <= |stack| && level == previous - (|stack| - |stack'|)
      invariant previous >= 2 && level <= 1 ==>
        events' == events + Ends(previous - 1) + memory + Ends(1 - level)
      invariant previous < 2 || level > 1 ==> events' == events + Ends(|stack| - |stack'|)
    {
      ghost var before := events';
      stack' := stack'[..|stack'| - 1];
      level := level - 1;
      events' := events' + [End];
      if level == 1 {
        events' := events' + [Begin(MEMORY)];
        events' := AddMemoryNode(events', regions);
        events' := events' + [End];
        assert events' == before + [End] + memory;
        assert Ends(0) == [];
      }
    }
    out := if level == 0 then Some(events') else None;
    assert Ends(1) == [End];
  }

  /** `update_fdt`, up to the finished stream; `None` is the panic of the closing assertion. */
  method UpdateFdt(nodes: seq<FdtNode>, regions: seq<Region>) returns (out: Option<seq<Event>>)
    ensures out == FinishWith(Emit(START, Select(Rewritten(nodes), NonMemoryMask(nodes))), MemoryEvents(regions))
  {
    var events: seq<Event>, stack: seq<string>, previous: nat := [], [], 0;
    ghost var all, keep := Rewritten(nodes), NonMemoryMask(nodes);
    EmitAll(START, all, keep);
    for index := 0 to |nodes|
      invariant Walk(events, |stack|, previous) == EmitUpTo(START, all, keep, index)
    {
      var node := nodes[index];
      EmitNext(START, all, keep, index);
      if node.data.name == ROOT {
      } else if MEMORY <= node.data.name {
        continue;
      } else {
        events, stack := HandleNodeLevelChange(events, stack, node.level, previous);
      }
      stack := stack + [node.data.name];
      previous := node.level;
      events := BeginRewritten(events, node.data);
    }
    out := CloseAllWithMemory(events, stack, previous, regions);
  }

  // ---- on trees

  function RewriteForest(f: Forest): (r: Forest)
    ensures Size(r) == Size(f)
  {
    match f
    case Nil => Nil
    case Node(d, c, s) => Node(Rewrite(d), RewriteForest(c), RewriteForest(s))
  }

  lemma {:induction false} RewrittenListing(f: Forest, level: nat)
    ensures Rewritten(Flatten(f, level)) == Flatten(RewriteForest(f), level)
  {
    if f.Node? {
      RewrittenListing(f.children, level + 1);
      RewrittenListing(f.siblings, level);
    }
  }

  lemma {:induction false} RewriteNoRoot(f: Forest)
    requires NoRoot(f)
    ensures NoRoot(RewriteForest(f))
  {
    if f.Node? {
      RewriteNoRoot(f.children);
      RewriteNoRoot(f.siblings);
    }
  }

  /** The given tree without memory nodes, and with one new memory node as the root's last child. */
  function WithMemory(t: Forest, regions: seq<Region>): Forest
    requires IsTree(t)
  {
    WithLastChild(Prune(RewriteForest(t), NonMemoryMask(Flatten(t, 1))), Node(MemoryData(regions), Nil, Nil))
  }

  lemma {:induction false} SerialiseAppend(f: Forest, g: Forest)
    ensures Serialise(Append(f, g)) == Serialise(f) + Serialise(g)
  {
    if f.Node? {
      SerialiseAppend(f.siblings, g);
      var a := Opening(f.data) + Serialise(f.children) + [End];
      assert a + (Serialise(f.siblings) + Serialise(g)) == (a + Serialise(f.siblings)) + Serialise(g);
    }
  }

  /** Over a tree's listing the memory node lands last below the root, if the root has any other child. */
  lemma {:induction false} FinishTreeWith(t: Forest, m: Forest)
    requires IsTree(t)
    ensures FinishWith(Emit(START, Flatten(t, 1)), Serialise(m))
      == Some(Serialise(if t.children.Node? then t.(children := Append(t.children, m)) else t))
  {
    if t.children.Node? {
      WalkBelowRoot(t);
      SerialiseAppend(t.children, m);
      var o, k, n := Opening(t.data), Serialise(t.children), Serialise(m);
      Assoc(o, k, n);
      EmptyAppend(o + (k + n) + [End]);
    } else {
      EmitTree(t);
    }
  }

  /** After a tree with children, the walk is balanced below the root, and all but the root's end is written. */
  lemma {:induction false} WalkBelowRoot(t: Forest)
    requires IsTree(t) && t.children.Node?
    ensures var w := Emit(START, Flatten(t, 1));
      Balanced(w) && w.last >= 2 && CloseTo(w, 1) == Opening(t.data) + Serialise(t.children)
  {
    var root, kids := FdtNode(t.data, 1), Flatten(t.children, 2);
    FlattenSingle(t.data, t.children, 1);
    EmptyAppend([root] + kids);
    EmitThree(START, root, kids, []);
    var w1 := Step(START, root);
    assert CloseTo(w1, 1) == Opening(t.data) by { assert Ends(0) == []; }
    EmitForest(w1, t.children, 2);
  }

  lemma {:induction false} DifferentCountWith(nodes: seq<FdtNode>, m: Forest, t: Forest)
    requires |nodes| + Size(m) != Size(t)
    requires Emit(START, nodes).last >= 2
    ensures FinishWith(Emit(START, nodes), Serialise(m)) != Some(Serialise(t))
  {
    var w := Emit(START, nodes);
    if w.open == w.last {
      BeginsEmit(START, nodes);
      DiffersWith(w.events, w.open - 1, m, t);
    }
  }

  lemma {:induction false} DiffersWith(events: seq<Event>, n: nat, m: Forest, t: Forest)
    requires Begins(events) + Size(m) != Size(t)
    ensures events + Ends(n) + Serialise(m) + [End] != Serialise(t)
  {
    BeginsWith(events, n, m);
    BeginsSerialise(t);
  }

  lemma {:induction false} BeginsWith(events: seq<Event>, n: nat, m: Forest)
    ensures Begins(events + Ends(n) + Serialise(m) + [End]) == Begins(events) + Size(m)
  {
    BeginsNone(Ends(n));
    BeginsNone([End]);
    BeginsSerialise(m);
    BeginsAppend(events, Ends(n));
    BeginsAppend(events + Ends(n), Serialise(m));
    BeginsAppend(events + Ends(n) + Serialise(m), [End]);
  }

  lemma {:induction false} LastLevel(w: Walk, nodes: seq<FdtNode>)
    requires nodes != []
    ensures Emit(w, nodes).last == nodes[|nodes| - 1].level
    decreases |nodes|
  {
    if |nodes| > 1 {
      LastLevel(Step(w, nodes[0]), nodes[1..]);
    } else {
      assert nodes[1..] == [];
    }
  }

  /** Nothing but memory nodes lies below a memory node. */
  ghost predicate MemoryQuiet(t: Forest) {
    forall i: nat, j: nat :: IsAncestor(t, i, j) && MEMORY <= Flatten(t, 1)[i].data.name
      ==> MEMORY <= Flatten(t, 1)[j].data.name
  }

  /** Rewriting data does not change the shape. */
  lemma {:induction false} ClosedRewrite(f: Forest, keep: seq<bool>)
    requires |keep| == Size(f)
    ensures Closed(RewriteForest(f), keep) <==> Closed(f, keep)
  {
    if f.Node? {
      ClosedParts(f, keep);
      ClosedParts(RewriteForest(f), keep);
      ClosedRewrite(f.children, ChildMask(f, keep));
      ClosedRewrite(f.siblings, SiblingMask(f, keep));
    }
  }

  lemma {:induction false} MemoryClosedIff(t: Forest)
    ensures Closed(RewriteForest(t), NonMemoryMask(Flatten(t, 1))) <==> MemoryQuiet(t)
  {
    var keep := NonMemoryMask(Flatten(t, 1));
    ClosedRewrite(t, keep);
    if !MemoryQuiet(t) {
      var i: nat, j: nat :| IsAncestor(t, i, j) && MEMORY <= Flatten(t, 1)[i].data.name
        && !(MEMORY <= Flatten(t, 1)[j].data.name);
      assert keep[j] && !keep[i];
    }
  }

  lemma {:induction false} KeptBelowRoot(t: Forest, keep: seq<bool>)
    requires IsTree(t) && |keep| == Size(t) && keep[0] && !Closed(t, keep)
    ensures var nodes := Select(Flatten(t, 1), keep);
      nodes != [] && nodes[|nodes| - 1].level >= 2
  {
    var cm := ChildMask(t, keep);
    ClosedParts(t, keep);
    FlattenParts(t, keep, 1);
    assert Flatten(t.siblings, 1) == [];
    KeptNone(cm);
    SelectCount(Flatten(t.children, 2), cm);
    var below := Select(Flatten(t.children, 2), cm);
    if Kept(cm) > 0 {
      SelectIn(Flatten(t.children, 2), cm, |below| - 1);
    }
  }

  /**
   * End to end: `update_fdt` writes the tree without its memory nodes and with exactly one new memory
   * node at the end of the root's children, iff nothing else lies below a memory node; and a tree of
   * which only the root is left gets no memory node at all.
   */
  lemma {:induction false} UpdatedTreeIff(t: Forest, regions: seq<Region>)
    requires IsTree(t)
    ensures var nodes := Flatten(t, 1);
      FinishWith(Emit(START, Select(Rewritten(nodes), NonMemoryMask(nodes))), MemoryEvents(regions))
        == Some(Serialise(WithMemory(t, regions)))
      <==> MemoryQuiet(t)
  {
    RewrittenListing(t, 1);
    RewriteNoRoot(t.children);
    MemoryClosedIff(t);
    assert |ROOT| < |MEMORY| && NonMemoryMask(Flatten(t, 1))[0];
    var m := Node(MemoryData(regions), Nil, Nil);
    SelectedWithMemoryIff(RewriteForest(t), NonMemoryMask(Flatten(t, 1)), m);
  }

  function WithLastChild(t: Forest, m: Forest): Forest {
    if t.Node? && t.children.Node? then t.(children := Append(t.children, m)) else t
  }

  /** A selection below a kept root, closed with `m` written in: the pruned tree with `m` iff it is closed. */
  lemma {:induction false} SelectedWithMemoryIff(t: Forest, keep: seq<bool>, m: Forest)
    requires IsTree(t) && |keep| == Size(t) && keep[0]
    ensures FinishWith(Emit(START, Select(Flatten(t, 1), keep)), Serialise(m))
        == Some(Serialise(WithLastChild(Prune(t, keep), m)))
      <==> Closed(t, keep)
  {
    var kept, listed := Prune(t, keep), Select(Flatten(t, 1), keep);
    if Closed(t, keep) {
      SelectIsPrune(t, keep, 1);
      PruneNoRoot(t.children, ChildMask(t, keep));
      FinishTreeWith(kept, m);
    } else {
      PruneSize(t, keep);
      SelectCount(Flatten(t, 1), keep);
      SizeAppend(kept.children, m);
      KeptBelowRoot(t, keep);
      LastLevel(START, listed);
      DifferentCountWith(listed, m, WithLastChild(kept, m));
    }
  }

  /**
   * For any nodes below a root, whatever tree they were taken from: a panic if a level is jumped over, else the
   * one tree that they list, with `m` as its root's last child.
   */
  lemma {:induction false} StreamWithMemory(root: FdtNode, nodes: seq<FdtNode>, m: Forest)
    requires root.data.name == ROOT && root.level == 1
    requires forall i :: 0 <= i < |nodes| ==> nodes[i].level >= 2 && nodes[i].data.name != ROOT
    ensures FinishWith(Emit(START, [root] + nodes), Serialise(m)) ==
      if NoJump(1, nodes) then Some(Serialise(WithLastChild(Node(root.data, Build(nodes, 2), Nil), m))) else None
  {
    FinishIffNoJump(root, nodes);
    if NoJump(1, nodes) {
      var t := Node(root.data, Build(nodes, 2), Nil);
      BuildLists(nodes, 2, t.children);
      BuiltNoRoot(nodes, 2);
      FlattenSingle(root.data, t.children, 1);
      FinishTreeWith(t, m);
    }
  }
}
