/** `build_phandle_map`: the table from phandles to nodes. */
module PhandleTable {
  import opened Basics
  import opened Cells
  import opened DeviceTree
  import opened GuestFdt
  import opened NodePaths
  import opened Phandles

  predicate IsHandle(name: string) {
    name == "phandle" || name == "linux,phandle"
  }

  predicate IsCellCount(name: string) {
    name in {"#address-cells", "#size-cells", "#clock-cells", "#reset-cells", "#gpio-cells", "#interrupt-cells",
             "#power-domain-cells", "#thermal-sensor-cells", "#phy-cells", "#dma-cells", "#sound-dai-cells",
             "#mbox-cells", "#pwm-cells", "#iommu-cells"}
  }

  /** The first cell of a value; `None` is the panic on a value that is too short. */
  function FirstCell(value: seq<Byte>): Option<U32> {
    if |value| >= 4 then Some(DecodeCell(value[..4])) else None
  }

  /** What is read of a node: its phandle and its cell counts. */
  datatype Scan = Scan(handle: Option<U32>, cells: map<string, U32>)

  function ScanProp(s: Scan, p: Prop): Option<Scan> {
    if !IsHandle(p.name) && !IsCellCount(p.name) then Some(s)
    else
      match FirstCell(p.value)
      case None => None
      case Some(c) =>
        if IsHandle(p.name) then Some(s.(handle := Some(c))) else Some(s.(cells := s.cells[p.name := c]))
  }

  function ScanProps(props: seq<Prop>): Option<Scan> {
    if props == [] then Some(Scan(None, map[]))
    else
      match ScanProps(props[..|props| - 1])
      case None => None
      case Some(s) => ScanProp(s, props[|props| - 1])
  }

  /** The loop over a node's properties. */
  method ScanNode(d: NodeData) returns (s: Option<Scan>)
    ensures s == ScanProps(d.props)
  {
    var scan := Scan(None, map[]);
    for k := 0 to |d.props|
      invariant ScanProps(d.props[..k]) == Some(scan)
    {
      assert d.props[..k + 1][..k] == d.props[..k];
      var next := ScanProp(scan, d.props[k]);
      if next.None? {
        ScanStays(d.props, k + 1);
        return None;
      }
      scan := next.value;
    }
    assert d.props[..|d.props|] == d.props;
    s := Some(scan);
  }

  lemma {:induction false} ScanStays(props: seq<Prop>, k: nat)
    requires k <= |props| && ScanProps(props[..k]).None?
    ensures ScanProps(props).None?
    decreases |props|
  {
    if k < |props| {
      assert props[..|props| - 1][..k] == props[..k];
      ScanStays(props[..|props| - 1], k);
    } else {
      assert props[..k] == props;
    }
  }

  /** The scan panics if and only if a property it reads has fewer than four bytes. */
  lemma {:induction false} ScanFailsIff(props: seq<Prop>)
    ensures ScanProps(props).None? <==>
      exists k :: 0 <= k < |props| && (IsHandle(props[k].name) || IsCellCount(props[k].name)) && |props[k].value| < 4
  {
    if props != [] {
      var n := |props| - 1;
      ScanFailsIff(props[..n]);
      if k :| 0 <= k < |props| && (IsHandle(props[k].name) || IsCellCount(props[k].name)) && |props[k].value| < 4 {
        assert k < n ==> props[..n][k] == props[k];
      }
    }
  }

  /** The last phandle property of a node counts. */
  lemma {:induction false} LastHandleCounts(props: seq<Prop>, k: nat, s: Scan)
    requires ScanProps(props) == Some(s) && k < |props| && props[k].name in {"phandle", "linux,phandle"}
    requires forall j :: k < j < |props| ==> props[j].name !in {"phandle", "linux,phandle"}
    ensures |props[k].value| >= 4 && s.handle == Some(DecodeCell(props[k].value[..4]))
  {
    var n := |props| - 1;
    if k < n {
      LastHandleCounts(props[..n], k, ScanProps(props[..n]).value);
    }
  }

  /** A node has a phandle only by a property of that name. */
  lemma {:induction false} NoHandle(props: seq<Prop>, s: Scan)
    requires ScanProps(props) == Some(s)
    requires forall j :: 0 <= j < |props| ==> props[j].name !in {"phandle", "linux,phandle"}
    ensures s.handle == None
  {
    if props != [] {
      NoHandle(props[..|props| - 1], ScanProps(props[..|props| - 1]).value);
    }
  }

  lemma {:induction false} CountIsNoHandle(name: string)
    requires IsCellCount(name)
    ensures !IsHandle(name)
  {
  }

  /** One more property sets the count of its own name and no other. */
  lemma {:induction false} CountAfterOne(s: Scan, p: Prop, name: string)
    requires IsCellCount(name) && ScanProp(s, p).Some?
    ensures var cells := ScanProp(s, p).value.cells;
      if p.name == name then |p.value| >= 4 && name in cells && cells[name] == DecodeCell(p.value[..4])
      else (name in cells <==> name in s.cells) && (name in cells ==> cells[name] == s.cells[name])
  {
    CountIsNoHandle(name);
  }

  /** The last property named like a count is that count. */
  lemma {:induction false} LastCountCounts(props: seq<Prop>, k: nat, s: Scan)
    requires ScanProps(props) == Some(s) && k < |props| && IsCellCount(props[k].name)
    requires forall j :: k < j < |props| ==> props[j].name != props[k].name
    ensures |props[k].value| >= 4 && props[k].name in s.cells
    ensures s.cells[props[k].name] == DecodeCell(props[k].value[..4])
  {
    var n := |props| - 1;
    CountAfterOne(ScanProps(props[..n]).value, props[n], props[k].name);
    if k < n {
      LastCountCounts(props[..n], k, ScanProps(props[..n]).value);
    }
  }

  /** A node has a count only by a property of its name. */
  lemma {:induction false} NoCount(props: seq<Prop>, name: string, s: Scan)
    requires ScanProps(props) == Some(s) && IsCellCount(name)
    requires forall j :: 0 <= j < |props| ==> props[j].name != name
    ensures name !in s.cells
  {
    if props != [] {
      var n := |props| - 1;
      CountAfterOne(ScanProps(props[..n]).value, props[n], name);
      NoCount(props[..n], name, ScanProps(props[..n]).value);
    }
  }

  // ---- the table

  function Entered(pm: PhandleMap, s: Scan, path: string): PhandleMap {
    if s.handle.Some? then pm[s.handle.value := Target(path, s.cells)] else pm
  }

  function TableOf(paths: seq<string>, nodes: seq<FdtNode>, n: nat): Option<PhandleMap>
    requires n <= |nodes| == |paths|
  {
    if n == 0 then Some(map[])
    else
      var pm, s := TableOf(paths, nodes, n - 1), ScanProps(nodes[n - 1].data.props);
      if pm.None? || s.None? then None else Some(Entered(pm.value, s.value, paths[n - 1]))
  }

  function PhandlesOf(nodes: seq<FdtNode>): Option<PhandleMap>
    requires Levelled(nodes)
  {
    TableOf(ListedPaths(nodes), nodes, |nodes|)
  }

  lemma {:induction false} TableStays(paths: seq<string>, nodes: seq<FdtNode>, k: nat, n: nat)
    requires k <= n <= |nodes| == |paths| && TableOf(paths, nodes, k).None?
    ensures TableOf(paths, nodes, n).None?
  {
    if k < n {
      TableStays(paths, nodes, k, n - 1);
    }
  }

  /** The table with one more node in it, or the panic. */
  function EnteredNode(pm: PhandleMap, d: NodeData, path: string): Option<PhandleMap> {
    match ScanProps(d.props)
    case None => None
    case Some(s) => Some(Entered(pm, s, path))
  }

  lemma {:induction false} TableNext(paths: seq<string>, nodes: seq<FdtNode>, i: nat, pm: PhandleMap)
    requires i < |nodes| == |paths| && TableOf(paths, nodes, i) == Some(pm)
    ensures TableOf(paths, nodes, i + 1) == EnteredNode(pm, nodes[i].data, paths[i])
  {
  }

  method EnterNode(pm: PhandleMap, d: NodeData, path: string) returns (table: Option<PhandleMap>)
    ensures table == EnteredNode(pm, d, path)
  {
    var scan := ScanNode(d);
    if scan.None? { return None; }
    table := Some(pm);
    if scan.value.handle.Some? {
      table := Some(pm[scan.value.handle.value := Target(path, scan.value.cells)]);
    }
  }

  /** `build_phandle_map`; `None` is a panic. */
  method BuildPhandleMap(nodes: seq<FdtNode>) returns (table: Option<PhandleMap>)
    requires Levelled(nodes)
    ensures table == PhandlesOf(nodes)
  {
    var pm: PhandleMap := map[];
    ghost var paths := ListedPaths(nodes);
    for index := 0 to |nodes|
      invariant TableOf(paths, nodes, index) == Some(pm)
    {
      var path := BuildNodePath(nodes, index);
      assert paths[index] == path;
      TableNext(paths, nodes, index, pm);
      var next := EnterNode(pm, nodes[index].data, path);
      if next.None? {
        TableStays(paths, nodes, index + 1, |nodes|);
        return None;
      }
      pm := next.value;
    }
    table := Some(pm);
  }

  function HandleOf(node: FdtNode): Option<U32> {
    match ScanProps(node.data.props)
    case None => None
    case Some(s) => s.handle
  }

  /** Every entry is that of a node with the handle. */
  lemma {:induction false} EntryNode(paths: seq<string>, nodes: seq<FdtNode>, n: nat, h: U32, pm: PhandleMap)
    returns (i: nat)
    requires n <= |nodes| == |paths| && TableOf(paths, nodes, n) == Some(pm) && h in pm
    ensures i < n && HandleOf(nodes[i]) == Some(h) && pm[h].path == paths[i]
    ensures forall j :: i < j < n ==> HandleOf(nodes[j]) != Some(h)
  {
    if HandleOf(nodes[n - 1]) == Some(h) {
      i := n - 1;
    } else {
      i := EntryNode(paths, nodes, n - 1, h, TableOf(paths, nodes, n - 1).value);
    }
  }

  /** The last node with a handle is the one in the table, with its path and its cell counts. */
  lemma {:induction false} LastNodeCounts(paths: seq<string>, nodes: seq<FdtNode>, n: nat, i: nat, pm: PhandleMap)
    requires i < n <= |nodes| == |paths| && TableOf(paths, nodes, n) == Some(pm) && HandleOf(nodes[i]).Some?
    requires forall j :: i < j < n ==> HandleOf(nodes[j]) != HandleOf(nodes[i])
    ensures var h := HandleOf(nodes[i]).value;
      h in pm && pm[h] == Target(paths[i], ScanProps(nodes[i].data.props).value.cells)
  {
    if i < n - 1 {
      LastNodeCounts(paths, nodes, n - 1, i, TableOf(paths, nodes, n - 1).value);
    }
  }
}
