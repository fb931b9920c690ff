/** The tree that `update_fdt` writes, as a reader of it finds it. */
module UpdatedEntries {
  import opened Basics
  import opened BootArgs
  import opened Cells
  import opened DeviceTree
  import opened Entries
  import opened FdtStream
  import opened GuestEntries
  import opened GuestFdt
  import opened Listings
  import opened MemoryNode
  import opened NodePaths

  // ---- the chosen node

  predicate IsInitrd(p: Prop) {
    "linux,initrd-" <= p.name
  }

  /** The properties that are no initrd's, in order. */
  function WithoutInitrd(props: seq<Prop>): seq<Prop> {
    if props == [] then []
    else (if IsInitrd(props[0]) then [] else [props[0]]) + WithoutInitrd(props[1..])
  }

  /** `out` is `p`, but for the boot arguments, whose text has been rewritten. */
  predicate Carried(p: Prop, out: Prop) {
    && out.name == p.name
    && (p.name != "bootargs" ==> out == p)
    && (p.name == "bootargs" ==> Text(out.value) == ReplaceRo(Text(p.value)) && |out.value| == |Text(p.value)| + 1)
  }

  predicate CarriedAll(props: seq<Prop>, out: seq<Prop>) {
    |out| == |props| && forall k :: 0 <= k < |props| ==> Carried(props[k], out[k])
  }

  lemma {:induction false} TextHasNoNul(raw: seq<Byte>)
    ensures 0 !in Text(raw)
  {
    if raw != [] && raw[0] != 0 {
      TextHasNoNul(raw[1..]);
    }
  }

  lemma {:induction false} TextOf(t: seq<Byte>)
    requires 0 !in t
    ensures Text(t + [0]) == t
  {
    if t != [] {
      ConsTail(t, [0]);
      TextOf(t[1..]);
    }
  }

  lemma {:induction false} RewrittenText(t: seq<Byte>)
    requires 0 !in t
    ensures |ReplaceRo(t)| == |t| && 0 !in ReplaceRo(t)
  {
    forall k: nat | k < |t| ensures |ReplaceRo(t)| == |t| && ReplaceRo(t)[k] != 0 {
      ReplaceRoAt(t, k);
    }
  }

  lemma {:induction false} ChosenCarried(p: Prop)
    requires !IsInitrd(p)
    ensures |ChosenProp(p)| == 1 && Carried(p, ChosenProp(p)[0])
  {
    if p.name == "bootargs" {
      TextHasNoNul(p.value);
      RewrittenText(Text(p.value));
      TextOf(ReplaceRo(Text(p.value)));
    }
  }

  lemma {:induction false} WithoutInitrdSnoc(props: seq<Prop>, p: Prop)
    ensures WithoutInitrd(props + [p]) == WithoutInitrd(props) + if IsInitrd(p) then [] else [p]
  {
    if props == [] {
      EmptyAppend([p]);
      assert [p][1..] == [];
    } else {
      ConsTail(props, [p]);
      WithoutInitrdSnoc(props[1..], p);
    }
  }

  /** The chosen node keeps all but its initrd properties, in order, with its boot arguments rewritten. */
  lemma {:induction false} ChosenIsCarried(props: seq<Prop>)
    ensures CarriedAll(WithoutInitrd(props), ChosenProps(props))
    ensures forall p :: p in ChosenProps(props) ==> !IsInitrd(p)
  {
    if props != [] {
      var init, last := props[..|props| - 1], props[|props| - 1];
      assert props == init + [last];
      WithoutInitrdSnoc(init, last);
      ChosenIsCarried(init);
      if !IsInitrd(last) {
        ChosenCarried(last);
      }
    }
  }

  // ---- the whole tree

  /** `out` is the node `e`: under its path, with its properties, or those of the chosen node carried over. */
  predicate CarriedEntry(e: Entry, out: Shown) {
    && out.path == e.path
    && (e.data.name != "chosen" ==> out.props == e.data.props)
    && (e.data.name == "chosen" ==> CarriedAll(WithoutInitrd(e.data.props), out.props))
  }

  lemma {:induction false} RewriteCarries(e: Entry)
    ensures CarriedEntry(e, Shown(e.path, Rewrite(e.data).props)) && Rewrite(e.data).name == e.data.name
  {
    ChosenIsCarried(e.data.props);
  }

  function RewriteAll(es: seq<Entry>): (r: seq<Entry>)
    ensures |r| == |es|
  {
    seq(|es|, i requires 0 <= i < |es| => Entry(es[i].path, Rewrite(es[i].data)))
  }

  lemma {:induction false} RewrittenEntries(f: Forest, prefix: seq<string>)
    ensures EntriesOf(RewriteForest(f), prefix) == RewriteAll(EntriesOf(f, prefix))
    decreases f
  {
    if f.Node? {
      var here := prefix + [f.data.name];
      RewrittenEntries(f.children, here);
      RewrittenEntries(f.siblings, prefix);
      RewriteParts(Entry(here, f.data), EntriesOf(f.children, here), EntriesOf(f.siblings, prefix));
    }
  }

  lemma {:induction false} RewriteParts(e: Entry, c: seq<Entry>, s: seq<Entry>)
    ensures RewriteAll([e] + c + s) == [Entry(e.path, Rewrite(e.data))] + RewriteAll(c) + RewriteAll(s)
  {
  }

  lemma {:induction false} RewrittenValid(f: Forest)
    ensures TopNames(RewriteForest(f)) == TopNames(f) && (ValidNames(f) ==> ValidNames(RewriteForest(f)))
  {
    if f.Node? {
      RewrittenValid(f.children);
      RewrittenValid(f.siblings);
    }
  }

  lemma {:induction false} SelectRewritten(es: seq<Entry>, keep: seq<bool>)
    requires |es| == |keep|
    ensures Select(RewriteAll(es), keep) == RewriteAll(Select(es, keep))
  {
    if es != [] {
      SelectRewritten(es[1..], keep[1..]);
      assert RewriteAll(es)[1..] == RewriteAll(es[1..]);
    }
  }

  predicate NotMemory(e: Entry) {
    !("memory" <= e.data.name)
  }

  /** The new memory node. */
  function NewMemory(regions: seq<Region>): Entry {
    Entry(["memory"], MemoryData(regions))
  }

  /** A node that says where the guest's memory is: its `reg` decodes to the regions, in order. */
  predicate IsMemoryNode(s: Shown, regions: seq<Region>) {
    && s.path == ["memory"] && |s.props| == 2 && s.props[0].name == "reg" && s.props[1].name == "device_type"
    && |s.props[0].value| % 4 == 0 && |DecodeCells(s.props[0].value)| % 4 == 0
    && ReadRegions(DecodeCells(s.props[0].value)) == regions
    && s.props[1].value == [0x6d, 0x65, 0x6d, 0x6f, 0x72, 0x79, 0x00]
  }

  /** A reader finds the root, the other nodes carried over, and then the new memory node if there are any. */
  predicate UpdatedShown(root: NodeData, left: seq<Entry>, regions: seq<Region>, out: seq<Shown>) {
    && |out| == 1 + |left| + (if left == [] then 0 else 1)
    && out[0] == Shown([], root.props)
    && (forall k :: 0 <= k < |left| ==> CarriedEntry(left[k], out[1 + k]))
    && (left != [] ==> IsMemoryNode(out[|out| - 1], regions))
  }

  /** Only memory nodes lie below memory nodes. */
  ghost predicate MemoryAlone(es: seq<Entry>) {
    forall i, j :: 0 <= i < |es| && 0 <= j < |es| && es[i].path < es[j].path && NotMemory(es[j]) ==> NotMemory(es[i])
  }

  /** The nodes that stay, and when they are closed. */
  lemma {:induction false} Staying(t: Forest)
    requires ValidTree(t)
    ensures var es, keep := EntriesOf(t.children, []), NonMemoryMask(Flatten(t, 1));
      && |keep| == Size(t) && keep[0] && |keep[1..]| == |es| && Select(es, keep[1..]) == Where(es, NotMemory)
      && (Closed(t.children, keep[1..]) <==> MemoryAlone(es))
  {
    var es, keep := EntriesOf(t.children, []), NonMemoryMask(Flatten(t, 1));
    assert Size(t.siblings) == 0;
    assert |ROOT| < |"memory"|;
    forall k | 0 <= k < |es| ensures keep[1..][k] <==> NotMemory(es[k]) {
      EntryBelow(t, k + 1);
    }
    SelectIsWhere(es, keep[1..], NotMemory);
    ClosedByPaths(t.children, keep[1..]);
  }

  /** The nodes that stay, rewritten. */
  lemma {:induction false} StayingRewritten(t: Forest)
    requires ValidTree(t)
    ensures var es, keep := EntriesOf(t.children, []), NonMemoryMask(Flatten(t, 1))[1..];
      && |keep| == Size(RewriteForest(t.children))
      && Select(EntriesOf(RewriteForest(t.children), []), keep) == RewriteAll(Where(es, NotMemory))
  {
    Staying(t);
    RewrittenEntries(t.children, []);
    SelectRewritten(EntriesOf(t.children, []), NonMemoryMask(Flatten(t, 1))[1..]);
  }

  lemma {:induction false} RootStays(t: Forest)
    requires IsTree(t)
    ensures RewriteForest(t) == Node(t.data, RewriteForest(t.children), Nil) && IsTree(RewriteForest(t))
  {
    assert |CHOSEN| != |ROOT|;
    RewriteNoRoot(t.children);
  }

  lemma {:induction false} MemoryIsNoRoot(regions: seq<Region>)
    ensures NoRoot(Node(MemoryData(regions), Nil, Nil))
    ensures EntriesOf(Node(MemoryData(regions), Nil, Nil), []) == [NewMemory(regions)]
  {
    assert |MEMORY| != |ROOT|;
    assert [] + [MEMORY] == [MEMORY];
  }

  /** A tree with its last child, as it is read. */
  lemma {:induction false} LastChildIsRead(root: NodeData, c: Forest, regions: seq<Region>)
    requires root.name == ROOT && NoRoot(c)
    ensures NodesRead(Serialise(WithLastChild(Node(root, c, Nil), Node(MemoryData(regions), Nil, Nil))))
      == [Shown([], root.props)]
       + ShownAll(EntriesOf(c, []) + if c.Nil? then [] else [NewMemory(regions)])
  {
    var m := Node(MemoryData(regions), Nil, Nil);
    MemoryIsNoRoot(regions);
    if c.Node? {
      EntriesAppend(c, m, []);
      AppendNoRoot(c, m);
      TreeIsRead(Node(root, Append(c, m), Nil));
    } else {
      EmptyAppend(EntriesOf(c, []));
      TreeIsRead(Node(root, c, Nil));
    }
  }

  /** The nodes that stay, rewritten and followed by the new one, are what is to be found. */
  lemma {:induction false} CarriedIsShown(root: NodeData, left: seq<Entry>, regions: seq<Region>)
    ensures UpdatedShown(root, left, regions,
      [Shown([], root.props)] + ShownAll(RewriteAll(left) + if left == [] then [] else [NewMemory(regions)]))
  {
    forall k | 0 <= k < |left| ensures CarriedEntry(left[k], Shown(left[k].path, Rewrite(left[k].data).props)) {
      RewriteCarries(left[k]);
    }
    RegReadsBack(regions);
    assert IsMemoryNode(Shown(["memory"], MemoryData(regions).props), regions);
  }

  lemma {:induction false} QuietIsRead(t: Forest, regions: seq<Region>)
    requires ValidTree(t) && MemoryAlone(EntriesOf(t.children, []))
    ensures UpdatedShown(t.data, Where(EntriesOf(t.children, []), NotMemory), regions,
                         NodesRead(Serialise(WithMemory(t, regions))))
  {
    var keep, r := NonMemoryMask(Flatten(t, 1)), RewriteForest(t);
    var left := Where(EntriesOf(t.children, []), NotMemory);
    Staying(t);
    StayingRewritten(t);
    RootStays(t);
    ClosedRewrite(t.children, keep[1..]);
    assert ChildMask(r, keep) == keep[1..] && SiblingMask(r, keep) == [];
    var c := Prune(r.children, keep[1..]);
    assert Prune(r, keep) == Node(t.data, c, Nil);
    EntriesPrune(r.children, keep[1..], []);
    PruneNoRoot(r.children, keep[1..]);
    LastChildIsRead(t.data, c, regions);
    assert |left| == |RewriteAll(left)| == Size(c);
    CarriedIsShown(t.data, left, regions);
  }

  /** If a forest, and perhaps one more node, is read as the nodes that stay, its paths start with theirs. */
  lemma {:induction false} ShownStarts(root: NodeData, left: seq<Entry>, regions: seq<Region>, got: seq<Entry>)
    requires UpdatedShown(root, left, regions, [Shown([], root.props)] + ShownAll(got))
    ensures StartsAs(got, RewriteAll(left))
  {
    var out := [Shown([], root.props)] + ShownAll(got);
    forall k | 0 <= k < |left| ensures k < |got| && got[k].path == left[k].path {
      assert CarriedEntry(left[k], out[1 + k]);
      assert out[1 + k] == ShownAll(got)[k];
    }
  }

  /** The kept nodes of the listing, and what is written of them. */
  lemma {:induction false} UpdateStream(t: Forest, regions: seq<Region>)
    requires ValidTree(t)
    ensures var nodes, keep := Flatten(t, 1), NonMemoryMask(Flatten(t, 1));
      var kept := Select(Flatten(RewriteForest(t.children), 2), keep[1..]);
      var m := Node(MemoryData(regions), Nil, Nil);
      && (NoJump(1, kept) ==> Listable(kept, 2) && NoRoot(Build(kept, 2)))
      && FinishWith(Emit(START, Select(Rewritten(nodes), keep)), MemoryEvents(regions)) ==
         if NoJump(1, kept) then Some(Serialise(WithLastChild(Node(t.data, Build(kept, 2), Nil), m))) else None
  {
    var r, keep := RewriteForest(t), NonMemoryMask(Flatten(t, 1));
    Staying(t);
    RootStays(t);
    RewrittenListing(t, 1);
    SelectTree(r, keep);
    NoRootSelected(r.children, 2, keep[1..]);
    var kept := Select(Flatten(r.children, 2), keep[1..]);
    StreamWithMemory(FdtNode(t.data, 1), kept, Node(MemoryData(regions), Nil, Nil));
    if NoJump(1, kept) {
      BuiltNoRoot(kept, 2);
    }
  }

  lemma {:induction false} LoudIsNotRead(t: Forest, regions: seq<Region>, b: Forest, i: nat, j: nat)
    requires ValidTree(t) && NoRoot(b)
    requires var keep := NonMemoryMask(Flatten(t, 1))[1..];
      |keep| == Size(t.children) && IsAncestor(t.children, i, j) && keep[j] && !keep[i]
    ensures var written := WithLastChild(Node(t.data, b, Nil), Node(MemoryData(regions), Nil, Nil));
      !UpdatedShown(t.data, Where(EntriesOf(t.children, []), NotMemory), regions, NodesRead(Serialise(written)))
  {
    var left, r, m := Where(EntriesOf(t.children, []), NotMemory), RewriteForest(t.children), MemoryData(regions);
    var c := if b.Node? then Append(b, Node(m, Nil, Nil)) else b;
    LastChildIsRead(t.data, b, regions);
    MemoryIsNoRoot(regions);
    EntriesAppend(b, Node(m, Nil, Nil), []);
    EmptyAppend(EntriesOf(b, []));
    if UpdatedShown(t.data, left, regions, [Shown([], t.data.props)] + ShownAll(EntriesOf(c, []))) {
      ShownStarts(t.data, left, regions, EntriesOf(c, []));
      StayingRewritten(t);
      RewrittenValid(t.children);
      SameShape(t.children, i, j);
      SamePathsClosed(r, NonMemoryMask(Flatten(t, 1))[1..], c, i, j);
    }
  }

  lemma {:induction false} SameShape(f: Forest, i: nat, j: nat)
    ensures IsAncestor(RewriteForest(f), i, j) <==> IsAncestor(f, i, j)
    decreases f
  {
    if f.Node? {
      var n, g := Size(f.children), RewriteForest(f);
      assert Size(g.children) == n;
      if i == 0 {
      } else if i <= n {
        if 1 <= j <= n { SameShape(f.children, i - 1, j - 1); }
      } else if j > n {
        SameShape(f.siblings, i - 1 - n, j - 1 - n);
      }
    }
  }

  /**
   * `update_fdt` from end to end: a reader finds the root, every node that is not named like memory under its own
   * path and with its properties, those of "chosen" carried over, and the new memory node last below the root,
   * if and only if nothing but memory nodes lies below memory nodes.
   */
  lemma {:induction false} UpdatedIsReadIff(t: Forest, regions: seq<Region>)
    requires ValidTree(t)
    ensures var nodes, es := Flatten(t, 1), EntriesOf(t.children, []);
      var out := FinishWith(Emit(START, Select(Rewritten(nodes), NonMemoryMask(nodes))), MemoryEvents(regions));
      out.Some? && UpdatedShown(t.data, Where(es, NotMemory), regions, NodesRead(out.value)) <==> MemoryAlone(es)
  {
    var es, keep := EntriesOf(t.children, []), NonMemoryMask(Flatten(t, 1));
    Staying(t);
    UpdateStream(t, regions);
    if MemoryAlone(es) {
      ClosedBelowRoot(t, keep);
      ClosedRewrite(t, keep);
      MemoryClosedIff(t);
      UpdatedTreeIff(t, regions);
      QuietIsRead(t, regions);
    } else {
      var kept := Select(Flatten(RewriteForest(t.children), 2), keep[1..]);
      var i: nat, j: nat :| IsAncestor(t.children, i, j) && keep[1..][j] && !keep[1..][i];
      if NoJump(1, kept) {
        LoudIsNotRead(t, regions, Build(kept, 2), i, j);
      }
    }
  }
}
