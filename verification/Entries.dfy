/** What a reader of a written stream sees: every node under its path, with its properties. */
module Entries {
  import opened Basics
  import opened DeviceTree
  import opened FdtStream
  import opened GuestFdt
  import opened Listings
  import opened NodePaths

  // ---- the nodes of a tree by path

  datatype Entry = Entry(path: seq<string>, data: NodeData)

  /** All nodes of a forest below `prefix`, in order. */
  function EntriesOf(f: Forest, prefix: seq<string>): (es: seq<Entry>)
    ensures |es| == Size(f)
  {
    match f
    case Nil => []
    case Node(d, c, s) =>
      [Entry(prefix + [d.name], d)] + EntriesOf(c, prefix + [d.name]) + EntriesOf(s, prefix)
  }

  lemma {:induction false} EntryAt(f: Forest, prefix: seq<string>, level: nat, i: nat)
    requires i < Size(f)
    ensures EntriesOf(f, prefix)[i] == Entry(PathAt(f, prefix, i), Flatten(f, level)[i].data)
    decreases f
  {
    var n := Size(f.children);
    if 1 <= i <= n {
      EntryAt(f.children, prefix + [f.data.name], level + 1, i - 1);
    } else if i > n {
      EntryAt(f.siblings, prefix, level, i - 1 - n);
    }
  }

  lemma {:induction false} EntriesAppend(f: Forest, g: Forest, prefix: seq<string>)
    ensures EntriesOf(Append(f, g), prefix) == EntriesOf(f, prefix) + EntriesOf(g, prefix)
  {
    if f.Node? {
      EntriesAppend(f.siblings, g, prefix);
      var here := prefix + [f.data.name];
      Assoc([Entry(here, f.data)] + EntriesOf(f.children, here), EntriesOf(f.siblings, prefix), EntriesOf(g, prefix));
    }
  }

  lemma {:induction false} EntriesParts(f: Forest, keep: seq<bool>, prefix: seq<string>)
    requires f.Node? && |keep| == Size(f)
    ensures var here := prefix + [f.data.name];
      Select(EntriesOf(f, prefix), keep) ==
      (if keep[0] then [Entry(here, f.data)] else [])
      + Select(EntriesOf(f.children, here), ChildMask(f, keep))
      + Select(EntriesOf(f.siblings, prefix), SiblingMask(f, keep))
  {
    var here := prefix + [f.data.name];
    var head, c, s := [Entry(here, f.data)], EntriesOf(f.children, here), EntriesOf(f.siblings, prefix);
    var cm, sm := ChildMask(f, keep), SiblingMask(f, keep);
    Assoc(head, c, s);
    ConsTail(head, c + s);
    EmptyAppend(c + s);
    assert keep[1..] == cm + sm;
    SelectAppend(c, s, cm, sm);
    Assoc(if keep[0] then head else [], Select(c, cm), Select(s, sm));
  }

  /** Pruning by a closed mask leaves every kept node under its own path. */
  lemma {:induction false} EntriesPrune(f: Forest, keep: seq<bool>, prefix: seq<string>)
    requires |keep| == Size(f) && Closed(f, keep)
    ensures EntriesOf(Prune(f, keep), prefix) == Select(EntriesOf(f, prefix), keep)
  {
    if f.Node? {
      var here, cm := prefix + [f.data.name], ChildMask(f, keep);
      ClosedParts(f, keep);
      EntriesParts(f, keep, prefix);
      EntriesPrune(f.children, cm, here);
      EntriesPrune(f.siblings, SiblingMask(f, keep), prefix);
      if !keep[0] {
        SelectNone(EntriesOf(f.children, here), cm);
      }
    }
  }

  /** The entries that satisfy a condition. */
  function Where(es: seq<Entry>, p: Entry -> bool): seq<Entry> {
    if es == [] then [] else (if p(es[0]) then [es[0]] else []) + Where(es[1..], p)
  }

  lemma {:induction false} SelectIsWhere(es: seq<Entry>, keep: seq<bool>, p: Entry -> bool)
    requires |es| == |keep| && forall i :: 0 <= i < |es| ==> keep[i] == p(es[i])
    ensures Select(es, keep) == Where(es, p)
  {
    if es != [] {
      SelectIsWhere(es[1..], keep[1..], p);
    }
  }

  // ---- reading a stream

  /** A node as a reader finds it. */
  datatype Shown = Shown(path: seq<string>, props: seq<Prop>)

  /** The properties at the start of a stream. */
  function Leading(events: seq<Event>): seq<Prop> {
    if events != [] && events[0].Property? then [events[0].prop] + Leading(events[1..]) else []
  }

  /** All nodes of a stream, under the names that are open at their beginning. */
  function ReadFrom(events: seq<Event>, open: seq<string>): seq<Shown>
    decreases |events|
  {
    if events == [] then []
    else
      match events[0]
      case Begin(name) =>
        var here := open + [name];
        [Shown(here, Leading(events[1..]))] + ReadFrom(events[1..], here)
      case Property(_) => ReadFrom(events[1..], open)
      case End => ReadFrom(events[1..], if open == [] then [] else open[..|open| - 1])
  }

  /** How a list of nodes looks to a reader. */
  function ShownAll(es: seq<Entry>): (r: seq<Shown>)
    ensures |r| == |es|
  {
    seq(|es|, i requires 0 <= i < |es| => Shown(es[i].path, es[i].data.props))
  }

  predicate NoProperty(events: seq<Event>) {
    events == [] || !events[0].Property?
  }

  lemma {:induction false} PropsAreRead(props: seq<Prop>, rest: seq<Event>, open: seq<string>)
    requires NoProperty(rest)
    ensures Leading(PropEvents(props) + rest) == props
    ensures ReadFrom(PropEvents(props) + rest, open) == ReadFrom(rest, open)
    decreases |props|
  {
    if props == [] {
      EmptyAppend(rest);
      assert PropEvents(props) == [];
    } else {
      PropsAreRead(props[1..], rest, open);
      ConsTail(PropEvents(props), rest);
      assert PropEvents(props)[1..] == PropEvents(props[1..]);
      assert props == [props[0]] + props[1..];
    }
  }

  lemma {:induction false} OpeningIsRead(d: NodeData, rest: seq<Event>, open: seq<string>)
    requires NoProperty(rest)
    ensures var here := open + [WriterName(d.name)];
      ReadFrom(Opening(d) + rest, open) == [Shown(here, d.props)] + ReadFrom(rest, here)
  {
    var here := open + [WriterName(d.name)];
    var begin, props := [Begin(WriterName(d.name))], PropEvents(d.props);
    Assoc(begin, props, rest);
    ConsTail(begin, props + rest);
    EmptyAppend(props + rest);
    PropsAreRead(d.props, rest, here);
  }

  lemma {:induction false} EndIsRead(rest: seq<Event>, open: seq<string>, name: string)
    ensures ReadFrom([End] + rest, open + [name]) == ReadFrom(rest, open)
  {
    ConsTail([End], rest);
    EmptyAppend(rest);
    assert (open + [name])[..|open|] == open;
  }

  lemma {:induction false} StartsNoProperty(f: Forest, rest: seq<Event>)
    requires NoProperty(rest)
    ensures NoProperty(Serialise(f) + rest)
  {
    EmptyAppend(rest);
  }

  lemma {:induction false} NodeEvents(d: NodeData, c: seq<Event>, s: seq<Event>, rest: seq<Event>)
    ensures Opening(d) + c + [End] + s + rest == Opening(d) + (c + ([End] + (s + rest)))
  {
  }

  lemma {:induction false} ShownParts(e: Entry, c: seq<Entry>, s: seq<Entry>)
    ensures ShownAll([e] + c + s) == [Shown(e.path, e.data.props)] + ShownAll(c) + ShownAll(s)
  {
  }

  /** A reader finds the nodes of a forest, each under its path with its properties, and then what follows. */
  lemma {:induction false} ForestIsRead(f: Forest, rest: seq<Event>, open: seq<string>)
    requires NoRoot(f) && NoProperty(rest)
    ensures ReadFrom(Serialise(f) + rest, open) == ShownAll(EntriesOf(f, open)) + ReadFrom(rest, open)
    decreases f
  {
    match f
    case Nil =>
      EmptyAppend(rest);
      EmptyAppend(ReadFrom(rest, open));
    case Node(d, c, s) =>
      var here, after := open + [d.name], Serialise(s) + rest;
      NodeEvents(d, Serialise(c), Serialise(s), rest);
      StartsNoProperty(s, rest);
      StartsNoProperty(c, [End] + after);
      OpeningIsRead(d, Serialise(c) + ([End] + after), open);
      ForestIsRead(c, [End] + after, here);
      EndIsRead(after, open, d.name);
      ForestIsRead(s, rest, open);
      ShownParts(Entry(here, d), EntriesOf(c, here), EntriesOf(s, open));
      Joined([Shown(here, d.props)], ShownAll(EntriesOf(c, here)), ShownAll(EntriesOf(s, open)), ReadFrom(rest, open));
  }

  lemma {:induction false} Joined<T>(a: seq<T>, b: seq<T>, c: seq<T>, d: seq<T>)
    ensures a + (b + (c + d)) == a + b + c + d
  {
  }

  /** The stream of a tree holds the root, under the empty name, and all its nodes below that. */
  lemma {:induction false} RootIsRead(t: Forest)
    requires IsTree(t)
    ensures ReadFrom(Serialise(t), []) == [Shown([""], t.data.props)] + ShownAll(EntriesOf(t.children, [""]))
  {
    var kids := Serialise(t.children);
    assert Serialise(t.siblings) == [];
    assert Serialise(t) == Opening(t.data) + (kids + [End]);
    StartsNoProperty(t.children, [End]);
    OpeningIsRead(t.data, kids + [End], []);
    assert [] + [""] == [""];
    ForestIsRead(t.children, [End], [""]);
    EmptyAppend([End]);
    EndIsRead([], [], "");
    EmptyAppend(ShownAll(EntriesOf(t.children, [""])));
  }

  /** All nodes of a stream, by their paths from the root. */
  function NodesRead(events: seq<Event>): seq<Shown> {
    var all := ReadFrom(events, []);
    seq(|all|, i requires 0 <= i < |all| => FromRoot(all[i]))
  }

  function FromRoot(s: Shown): Shown {
    if s.path == [] then s else s.(path := s.path[1..])
  }

  lemma {:induction false} EntriesBelow(f: Forest, prefix: seq<string>, i: nat)
    requires i < Size(f)
    ensures EntriesOf(f, [""] + prefix)[i].path == [""] + EntriesOf(f, prefix)[i].path
    ensures EntriesOf(f, [""] + prefix)[i].data == EntriesOf(f, prefix)[i].data
    decreases f
  {
    var n, here := Size(f.children), prefix + [f.data.name];
    Assoc([""], prefix, [f.data.name]);
    if 1 <= i <= n {
      EntriesBelow(f.children, here, i - 1);
    } else if i > n {
      EntriesBelow(f.siblings, prefix, i - 1 - n);
    }
  }

  /** A reader of the stream of a tree finds its nodes by their paths, with their properties, in order. */
  lemma {:induction false} TreeIsRead(t: Forest)
    requires IsTree(t)
    ensures NodesRead(Serialise(t)) == [Shown([], t.data.props)] + ShownAll(EntriesOf(t.children, []))
  {
    RootIsRead(t);
    var all, es := ReadFrom(Serialise(t), []), EntriesOf(t.children, []);
    assert FromRoot(Shown([""], t.data.props)) == Shown([], t.data.props);
    forall i | 0 <= i < |es| ensures FromRoot(all[i + 1]) == Shown(es[i].path, es[i].data.props) {
      EntriesBelow(t.children, [], i);
      EmptyAppend([""]);
      assert ([""] + es[i].path)[1..] == es[i].path;
    }
  }

  // ---- the paths of a forest

  /** Whatever lies above a node of a forest, below the forest's own place, is a node of it, and comes first. */
  lemma {:induction false} PathsAbove(f: Forest, prefix: seq<string>, i: nat, n: nat) returns (k: nat)
    requires i < Size(f) && |prefix| < n <= |PathAt(f, prefix, i)|
    ensures k <= i && PathAt(f, prefix, k) == PathAt(f, prefix, i)[..n]
    decreases f
  {
    var size, here := Size(f.children), prefix + [f.data.name];
    if i == 0 {
      k := 0;
    } else if i <= size {
      PathShape(f.children, here, i - 1);
      if n == |here| {
        k := 0;
      } else {
        var below := PathsAbove(f.children, here, i - 1, n);
        k := below + 1;
      }
    } else {
      var beside := PathsAbove(f.siblings, prefix, i - 1 - size, n);
      k := beside + 1 + size;
    }
  }

  // ---- a selection, as it is read

  lemma {:induction false} SelectFrom<T>(nodes: seq<T>, keep: seq<bool>, k: nat) returns (m: nat)
    requires |nodes| == |keep| && k < |Select(nodes, keep)|
    ensures m < |nodes| && keep[m] && Select(nodes, keep)[k] == nodes[m]
  {
    var head := if keep[0] then 1 else 0;
    if k < head {
      m := 0;
    } else {
      var later := SelectFrom(nodes[1..], keep[1..], k - head);
      m := later + 1;
    }
  }

  lemma {:induction false} SelectTo<T>(nodes: seq<T>, keep: seq<bool>, m: nat) returns (k: nat)
    requires |nodes| == |keep| && m < |nodes| && keep[m]
    ensures k < |Select(nodes, keep)| && Select(nodes, keep)[k] == nodes[m]
  {
    if m == 0 {
      k := 0;
    } else {
      var later := SelectTo(nodes[1..], keep[1..], m - 1);
      k := later + if keep[0] then 1 else 0;
    }
  }

  lemma {:induction false} SamePath(a: seq<Entry>, b: seq<Entry>, q: nat)
    requires ShownAll(a) == ShownAll(b) && (q < |a| || q < |b|)
    ensures q < |a| == |b| && a[q].path == b[q].path
  {
    assert |a| == |ShownAll(a)| == |ShownAll(b)| == |b|;
    assert ShownAll(a)[q] == ShownAll(b)[q];
  }

  lemma {:induction false} SameStart(a: seq<Entry>, b: seq<Entry>)
    requires ShownAll(a) == ShownAll(b)
    ensures StartsAs(a, b)
  {
    assert |a| == |ShownAll(a)| == |ShownAll(b)| == |b|;
    forall q | 0 <= q < |b| ensures a[q].path == b[q].path {
      SamePath(a, b, q);
    }
  }

  /** The nodes `a` start with those of `b`, as far as paths go. */
  predicate StartsAs(a: seq<Entry>, b: seq<Entry>) {
    |b| <= |a| && forall q :: 0 <= q < |b| ==> a[q].path == b[q].path
  }

  /** If a forest starts with the kept nodes of another under their own paths, all above a kept node are kept. */
  lemma {:induction false} SamePathsClosed(f: Forest, keep: seq<bool>, g: Forest, i: nat, j: nat)
    requires ValidNames(f) && |keep| == Size(f) && IsAncestor(f, i, j) && keep[j]
    requires StartsAs(EntriesOf(g, []), Select(EntriesOf(f, []), keep))
    ensures keep[i]
  {
    var es := EntriesOf(f, []);
    var q := SelectTo(es, keep, j);
    var above := AboveIn(f, g, i, j, q);
    var m := SelectFrom(es, keep, above);
    EntryAt(f, [], 0, i);
    EntryAt(f, [], 0, m);
    AncestorIsPrefix(f, [], i, m);
  }

  lemma {:induction false} AboveIn(f: Forest, g: Forest, i: nat, j: nat, q: nat) returns (k: nat)
    requires ValidNames(f) && IsAncestor(f, i, j) && q < Size(g)
    requires EntriesOf(g, [])[q].path == EntriesOf(f, [])[j].path
    ensures k <= q && EntriesOf(g, [])[k].path == EntriesOf(f, [])[i].path
  {
    EntryAt(f, [], 0, i);
    EntryAt(f, [], 0, j);
    EntryAt(g, [], 0, q);
    AncestorIsPrefix(f, [], i, j);
    PathShape(f, [], i);
    var n := |PathAt(f, [], i)|;
    k := PathsAbove(g, [], q, n);
    EntryAt(g, [], 0, k);
  }

  /** The kept nodes of a tree as a reader should find them: the root, and the others under their own paths. */
  function Expected(t: Forest, keep: seq<bool>): seq<Shown>
    requires IsTree(t) && |keep| == Size(t)
  {
    assert Size(t.siblings) == 0;
    [Shown([], t.data.props)] + ShownAll(Select(EntriesOf(t.children, []), keep[1..]))
  }

  lemma {:induction false} ClosedBelowRoot(t: Forest, keep: seq<bool>)
    requires IsTree(t) && |keep| == Size(t) && keep[0]
    ensures |keep[1..]| == Size(t.children) && (Closed(t, keep) <==> Closed(t.children, keep[1..]))
  {
    ClosedParts(t, keep);
    assert ChildMask(t, keep) == keep[1..] && SiblingMask(t, keep) == [];
  }

  /** A reader finds the kept nodes of a tree, each under its own path, if and only if all above them are kept. */
  lemma {:induction false} SelectionIsReadIff(t: Forest, keep: seq<bool>)
    requires ValidTree(t) && |keep| == Size(t) && keep[0]
    ensures var out := Finish(Emit(START, Select(Flatten(t, 1), keep)));
      out.Some? && NodesRead(out.value) == Expected(t, keep) <==> Closed(t, keep)
  {
    ClosedBelowRoot(t, keep);
    if Closed(t, keep) {
      EmitSelectedIffClosed(t, keep);
      ClosedIsRead(t, keep);
    } else {
      var i: nat, j: nat :| IsAncestor(t.children, i, j) && keep[1..][j] && !keep[1..][i];
      OpenIsNotRead(t, keep, i, j);
    }
  }

  lemma {:induction false} ClosedIsRead(t: Forest, keep: seq<bool>)
    requires IsTree(t) && |keep| == Size(t) && keep[0] && Closed(t, keep)
    ensures NodesRead(Serialise(Prune(t, keep))) == Expected(t, keep)
  {
    ClosedBelowRoot(t, keep);
    assert ChildMask(t, keep) == keep[1..] && SiblingMask(t, keep) == [];
    EntriesPrune(t.children, keep[1..], []);
    PruneNoRoot(t.children, keep[1..]);
    assert Prune(t, keep) == Node(t.data, Prune(t.children, keep[1..]), Nil);
    TreeIsRead(Prune(t, keep));
  }

  lemma {:induction false} OpenIsNotRead(t: Forest, keep: seq<bool>, i: nat, j: nat)
    requires ValidTree(t) && |keep| == Size(t) && keep[0]
    requires IsAncestor(t.children, i, j) && keep[1..][j] && !keep[1..][i]
    ensures var out := Finish(Emit(START, Select(Flatten(t, 1), keep)));
      out.Some? ==> NodesRead(out.value) != Expected(t, keep)
  {
    var kept := Select(Flatten(t.children, 2), keep[1..]);
    SelectTree(t, keep);
    NoRootSelected(t.children, 2, keep[1..]);
    StreamOfListing(FdtNode(t.data, 1), kept);
    if NoJump(1, kept) {
      var g := Build(kept, 2);
      BuiltNoRoot(kept, 2);
      TreeIsRead(Node(t.data, g, Nil));
      if NodesRead(Serialise(Node(t.data, g, Nil))) == Expected(t, keep) {
        SameTail(Shown([], t.data.props), ShownAll(EntriesOf(g, [])),
                 ShownAll(Select(EntriesOf(t.children, []), keep[1..])));
        SameStart(EntriesOf(g, []), Select(EntriesOf(t.children, []), keep[1..]));
        SamePathsClosed(t.children, keep[1..], g, i, j);
      }
    }
  }

  lemma {:induction false} SameTail<T>(x: T, a: seq<T>, b: seq<T>)
    requires [x] + a == [x] + b
    ensures a == b
  {
    assert ([x] + a)[1..] == a && ([x] + b)[1..] == b;
  }
}
