/** The begin/property/end stream written while walking a node listing with a stack of open nodes. */
module FdtStream {
  import opened Basics
  import opened DeviceTree

  datatype Event = Begin(name: string) | Property(prop: Prop) | End

  const ROOT: string := "/"

  /** The root is written with the empty name, every other node with its own. */
  function WriterName(name: string): string {
    if name == ROOT then "" else name
  }

  function PropEvents(props: seq<Prop>): seq<Event> {
    seq(|props|, i requires 0 <= i < |props| => Property(props[i]))
  }

  function Opening(d: NodeData): seq<Event> {
    [Begin(WriterName(d.name))] + PropEvents(d.props)
  }

  /** The structure block of a forest: properties come before children, and every node is closed. */
  function Serialise(f: Forest): seq<Event> {
    match f
    case Nil => []
    case Node(d, c, s) => Opening(d) + Serialise(c) + [End] + Serialise(s)
  }

  function Ends(n: nat): (e: seq<Event>)
    ensures |e| == n && forall i :: 0 <= i < n ==> e[i] == End
  {
    seq(n, _ => End)
  }

  /** What a walk carries: the stream, the height of the node stack, the level of the last node written. */
  datatype Walk = Walk(events: seq<Event>, open: nat, last: nat)

  const START := Walk([], 0, 0)

  /** `handle_node_level_change`: close nodes, as far as there are any, to make room at `level`. */
  function Leave(w: Walk, level: nat): Walk {
    if level <= w.last then
      var n := Min(w.open, w.last - level + 1);
      Walk(w.events + Ends(n), w.open - n, w.last)
    else w
  }

  function Enter(w: Walk, node: FdtNode): Walk {
    Walk(w.events + Opening(node.data), w.open + 1, node.level)
  }

  function Step(w: Walk, node: FdtNode): Walk {
    Enter(if node.data.name == ROOT then w else Leave(w, node.level), node)
  }

  function Emit(w: Walk, nodes: seq<FdtNode>): Walk
    decreases |nodes|
  {
    if nodes == [] then w else Emit(Step(w, nodes[0]), nodes[1..])
  }

  /** Close what is still open; `None` when the closing assertion fails. */
  function Finish(w: Walk): Option<seq<Event>> {
    if w.open == w.last then Some(w.events + Ends(w.open)) else None
  }

  /** The stack is as high as the last level written. */
  predicate Balanced(w: Walk) {
    w.open == w.last
  }

  function CloseTo(w: Walk, level: nat): seq<Event>
    requires level <= w.open
  {
    w.events + Ends(w.open - level)
  }

  predicate NoRoot(f: Forest) {
    f.Node? ==> f.data.name != ROOT && NoRoot(f.children) && NoRoot(f.siblings)
  }

  /** A device tree: one root, named "/", and no other node of that name. */
  predicate IsTree(t: Forest) {
    t.Node? && t.data.name == ROOT && t.siblings.Nil? && NoRoot(t.children)
  }

  lemma {:induction false} EmitAppend(w: Walk, a: seq<FdtNode>, b: seq<FdtNode>)
    ensures Emit(w, a + b) == Emit(Emit(w, a), b)
    decreases |a|
  {
    if a == [] {
      assert a + b == b;
    } else {
      EmitAppend(Step(w, a[0]), a[1..], b);
      assert (a + b)[1..] == a[1..] + b;
    }
  }

  lemma {:induction false} EmitThree(w: Walk, node: FdtNode, a: seq<FdtNode>, b: seq<FdtNode>)
    ensures Emit(w, [node] + a + b) == Emit(Emit(Step(w, node), a), b)
  {
    EmitAppend(w, [node] + a, b);
    EmitAppend(w, [node], a);
    assert Emit(w, [node]) == Step(w, node);
  }

  lemma {:induction false} LeaveCloses(w: Walk, level: nat)
    requires Balanced(w) && 1 <= level <= w.last + 1
    ensures Balanced(Leave(w, level).(last := level - 1))
    ensures Leave(w, level).events == CloseTo(w, level - 1)
  {
    if level == w.last + 1 {
      assert Ends(0) == [];
    }
  }

  lemma {:induction false} CloseOneMore(w: Walk, level: nat)
    requires 1 <= level <= w.open
    ensures CloseTo(w, level - 1) == CloseTo(w, level) + [End]
  {
    assert Ends(w.open - level + 1) == Ends(w.open - level) + [End];
  }

  lemma {:induction false} StepOpens(w: Walk, node: FdtNode)
    requires Balanced(w) && 1 <= node.level <= w.last + 1 && node.data.name != ROOT
    ensures Balanced(Step(w, node)) && Step(w, node).last == node.level
    ensures CloseTo(Step(w, node), node.level) == CloseTo(w, node.level - 1) + Opening(node.data)
  {
    LeaveCloses(w, node.level);
    assert Ends(0) == [];
  }

  /** The walk `w'` is balanced and, once closed down to `level`, has written `events` after `w`. */
  predicate Writes(w: Walk, w': Walk, level: nat, events: seq<Event>) {
    && level <= w.open && level <= w'.open && Balanced(w')
    && CloseTo(w', level) == CloseTo(w, level) + events
  }

  lemma {:induction false} WritesNode(w: Walk, node: FdtNode, w2: Walk, w3: Walk, kids: seq<Event>, rest: seq<Event>)
    requires Balanced(w) && 1 <= node.level <= w.last + 1 && node.data.name != ROOT
    requires Writes(Step(w, node), w2, node.level, kids)
    requires Writes(w2, w3, node.level - 1, rest)
    ensures Writes(w, w3, node.level - 1, Opening(node.data) + kids + [End] + rest)
  {
    StepOpens(w, node);
    CloseOneMore(w2, node.level);
    var c := CloseTo(w, node.level - 1);
    assert (((c + Opening(node.data)) + kids) + [End]) + rest
        == c + (Opening(node.data) + kids + [End] + rest);
  }

  /** Walking the listing of a forest writes that forest, up to nodes still open at or below `level`. */
  lemma {:induction false} EmitForest(w: Walk, f: Forest, level: nat)
    requires Balanced(w) && 1 <= level <= w.last + 1 && NoRoot(f)
    ensures Writes(w, Emit(w, Flatten(f, level)), level - 1, Serialise(f))
    ensures f.Node? ==> level <= Emit(w, Flatten(f, level)).last
    decreases f
  {
    if f.Node? {
      var node := FdtNode(f.data, level);
      StepOpens(w, node);
      EmitForest(Step(w, node), f.children, level + 1);
      var w2 := Emit(Step(w, node), Flatten(f.children, level + 1));
      EmitForest(w2, f.siblings, level);
      EmitNode(w, f, level, w2, Emit(w2, Flatten(f.siblings, level)));
    }
  }

  /** The walk over a node, its children and its siblings, put together. */
  lemma {:induction false} EmitNode(w: Walk, f: Forest, level: nat, w2: Walk, w3: Walk)
    requires f.Node? && f.data.name != ROOT && Balanced(w) && 1 <= level <= w.last + 1
    requires w2 == Emit(Step(w, FdtNode(f.data, level)), Flatten(f.children, level + 1))
    requires w3 == Emit(w2, Flatten(f.siblings, level))
    requires Writes(Step(w, FdtNode(f.data, level)), w2, level, Serialise(f.children))
    requires Writes(w2, w3, level - 1, Serialise(f.siblings))
    ensures Emit(w, Flatten(f, level)) == w3 && Writes(w, w3, level - 1, Serialise(f))
  {
    var node := FdtNode(f.data, level);
    EmitThree(w, node, Flatten(f.children, level + 1), Flatten(f.siblings, level));
    WritesNode(w, node, w2, w3, Serialise(f.children), Serialise(f.siblings));
  }

  /** The walk over the listing of a tree writes exactly that tree, and its closing assertion holds. */
  lemma {:induction false} EmitTree(t: Forest)
    requires IsTree(t)
    ensures Finish(Emit(START, Flatten(t, 1))) == Some(Serialise(t))
  {
    var root, kids := FdtNode(t.data, 1), Flatten(t.children, 2);
    assert Flatten(t, 1) == [root] + kids + [];
    EmitThree(START, root, kids, []);
    var w1 := Step(START, root);
    EmitForest(w1, t.children, 2);
    var w := Emit(w1, kids);
    assert CloseTo(w1, 1) == Opening(t.data) by { assert Ends(0) == []; }
    CloseOneMore(w, 1);
    assert Serialise(t) == Opening(t.data) + Serialise(t.children) + [End];
  }

  // ---- when the closing assertion holds

  /** No node is written more than one level below the node written before it. */
  predicate NoJump(last: nat, nodes: seq<FdtNode>)
    decreases |nodes|
  {
    nodes == [] || (nodes[0].level <= last + 1 && NoJump(nodes[0].level, nodes[1..]))
  }

  lemma {:induction false} BalanceIff(w: Walk, nodes: seq<FdtNode>)
    requires 1 <= w.open <= w.last
    requires forall i :: 0 <= i < |nodes| ==> nodes[i].level >= 2 && nodes[i].data.name != ROOT
    ensures Emit(w, nodes).open <= Emit(w, nodes).last
    ensures Balanced(Emit(w, nodes)) <==> Balanced(w) && NoJump(w.last, nodes)
    decreases |nodes|
  {
    if nodes != [] {
      BalanceIff(Step(w, nodes[0]), nodes[1..]);
    }
  }

  /** For any nodes below a root, tree or not: the walk finishes iff no level is jumped over. */
  lemma {:induction false} FinishIffNoJump(root: FdtNode, nodes: seq<FdtNode>)
    requires root.data.name == ROOT && root.level == 1
    requires forall i :: 0 <= i < |nodes| ==> nodes[i].level >= 2 && nodes[i].data.name != ROOT
    ensures Finish(Emit(START, [root] + nodes)).Some? <==> NoJump(1, nodes)
  {
    EmitAppend(START, [root], nodes);
    assert Emit(START, [root]) == Step(START, root);
    BalanceIff(Step(START, root), nodes);
  }

  // ---- the stream determines how many nodes were written

  function Begins(events: seq<Event>): nat {
    if events == [] then 0 else (if events[0].Begin? then 1 else 0) + Begins(events[1..])
  }

  lemma {:induction false} BeginsAppend(a: seq<Event>, b: seq<Event>)
    ensures Begins(a + b) == Begins(a) + Begins(b)
  {
    if a == [] {
      assert a + b == b;
    } else {
      BeginsAppend(a[1..], b);
      assert (a + b)[1..] == a[1..] + b;
    }
  }

  lemma {:induction false} BeginsNone(events: seq<Event>)
    requires forall i :: 0 <= i < |events| ==> !events[i].Begin?
    ensures Begins(events) == 0
  {
    if events != [] {
      BeginsNone(events[1..]);
    }
  }

  lemma {:induction false} BeginsOpening(d: NodeData)
    ensures Begins(Opening(d)) == 1
  {
    BeginsNone(PropEvents(d.props));
    assert Opening(d)[1..] == PropEvents(d.props);
  }

  lemma {:induction false} BeginsSerialise(f: Forest)
    ensures Begins(Serialise(f)) == Size(f)
  {
    match f
    case Nil =>
    case Node(d, c, s) =>
      BeginsOpening(d);
      BeginsSerialise(c);
      BeginsSerialise(s);
      BeginsNone([End]);
      BeginsAppend(Opening(d), Serialise(c));
      BeginsAppend(Opening(d) + Serialise(c), [End]);
      BeginsAppend(Opening(d) + Serialise(c) + [End], Serialise(s));
  }

  lemma {:induction false} BeginsStep(w: Walk, node: FdtNode)
    ensures Begins(Step(w, node).events) == Begins(w.events) + 1
  {
    var l := if node.data.name == ROOT then w else Leave(w, node.level);
    var n := if node.level <= w.last then Min(w.open, w.last - node.level + 1) else 0;
    BeginsNone(Ends(n));
    BeginsAppend(w.events, Ends(n));
    BeginsOpening(node.data);
    BeginsAppend(l.events, Opening(node.data));
  }

  lemma {:induction false} BeginsEmit(w: Walk, nodes: seq<FdtNode>)
    ensures Begins(Emit(w, nodes).events) == Begins(w.events) + |nodes|
    decreases |nodes|
  {
    if nodes != [] {
      BeginsStep(w, nodes[0]);
      BeginsEmit(Step(w, nodes[0]), nodes[1..]);
    }
  }

  /** A stream tells how many nodes it holds. */
  lemma {:induction false} DifferentCount(nodes: seq<FdtNode>, t: Forest)
    requires |nodes| != Size(t)
    ensures Finish(Emit(START, nodes)) != Some(Serialise(t))
  {
    var w := Emit(START, nodes);
    BeginsEmit(START, nodes);
    BeginsNone(Ends(w.open));
    BeginsAppend(w.events, Ends(w.open));
    BeginsSerialise(t);
  }

  // ---- pruning through the stream

  lemma {:induction false} PruneNoRoot(f: Forest, keep: seq<bool>)
    requires |keep| == Size(f) && NoRoot(f)
    ensures NoRoot(Prune(f, keep))
  {
    if f.Node? {
      PruneNoRoot(f.children, ChildMask(f, keep));
      PruneNoRoot(f.siblings, SiblingMask(f, keep));
    }
  }

  /** Skipping unkept nodes writes the pruned tree if and only if kept nodes have kept ancestors. */
  lemma {:induction false} EmitSelectedIffClosed(t: Forest, keep: seq<bool>)
    requires IsTree(t) && |keep| == Size(t) && keep[0]
    ensures Closed(t, keep) <==>
      Finish(Emit(START, Select(Flatten(t, 1), keep))) == Some(Serialise(Prune(t, keep)))
  {
    var nodes := Select(Flatten(t, 1), keep);
    SelectIsPruneIffClosed(t, keep, 1);
    PruneNoRoot(t.children, ChildMask(t, keep));
    if Closed(t, keep) {
      EmitTree(Prune(t, keep));
    } else {
      PruneSize(t, keep);
      SelectCount(Flatten(t, 1), keep);
      DifferentCount(nodes, Prune(t, keep));
    }
  }

  lemma {:induction false} AppendNoRoot(f: Forest, g: Forest)
    requires NoRoot(f) && NoRoot(g)
    ensures NoRoot(Append(f, g))
  {
    if f.Node? {
      AppendNoRoot(f.siblings, g);
    }
  }

  // ---- the writing loops

  /** `handle_node_level_change`, on the stream and the stack of open nodes. */
  method HandleNodeLevelChange(events: seq<Event>, stack: seq<string>, current: nat, previous: nat)
    returns (events': seq<Event>, stack': seq<string>)
    ensures Walk(events', |stack'|, previous) == Leave(Walk(events, |stack|, previous), current)
    ensures stack' <= stack
  {
    events', stack' := events, stack;
    if current <= previous {
      for k := current to previous + 1
        invariant stack' == stack[..|stack| - Min(|stack|, k - current)]
        invariant events' == events + Ends(Min(|stack|, k - current))
      {
        if stack' != [] {
          stack' := stack'[..|stack'| - 1];
          events' := events' + [End];
        }
      }
    }
  }

  /** `begin_node` followed by a copy of the node's properties. */
  method BeginNamed(events: seq<Event>, name: string, props: seq<Prop>) returns (events': seq<Event>)
    ensures events' == events + ([Begin(name)] + PropEvents(props))
  {
    events' := events + [Begin(name)];
    for k := 0 to |props|
      invariant events' == events + [Begin(name)] + PropEvents(props)[..k]
    {
      events' := events' + [Property(props[k])];
    }
  }

  /** The same under the name the writer uses. */
  method BeginNode(events: seq<Event>, d: NodeData) returns (events': seq<Event>)
    ensures events' == events + Opening(d)
  {
    events' := BeginNamed(events, WriterName(d.name), d.props);
  }

  /** The closing loop and its assertion. */
  method CloseAll(events: seq<Event>, stack: seq<string>, previous: nat) returns (out: Option<seq<Event>>)
    ensures out == Finish(Walk(events, |stack|, previous))
  {
    var events', stack', level: int := events, stack, previous;
    while stack' != []
      invariant |stack'| <= |stack| && level == previous - (|stack| - |stack'|)
      invariant events' == events + Ends(|stack| - |stack'|)
    {
      stack' := stack'[..|stack'| - 1];
      level := level - 1;
      events' := events' + [End];
    }
    out := if level == 0 then Some(events') else None;
  }
}
