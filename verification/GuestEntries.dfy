/** The guest tree as a reader of it finds it, said in terms of paths, names and addresses. */
module GuestEntries {
  import opened Basics
  import opened CpuNodes
  import opened DeviceTree
  import opened Entries
  import opened FdtStream
  import opened GuestFdt
  import opened NodePaths

  // ---- cpu nodes by their place

  /** The path of a cpu, or of a node below one. */
  predicate UnderCpu(path: seq<string>) {
    |path| >= 2 && path[0] == "cpus" && "cpu@" <= path[1]
  }

  predicate UnderCpus(path: seq<string>) {
    path != [] && "cpus" <= path[0]
  }

  predicate HasAddressIn(d: NodeData, cpus: seq<nat>) {
    d.reg.Some? && d.reg.value in cpus
  }

  /** A slash-free name starts a rendered path if and only if it starts the path's first name. */
  lemma {:induction false} FirstNamePrefix(p: seq<string>, name: string)
    requires AllValid(p) && p != [] && '/' !in name
    ensures "/" + name <= Slashed(p) <==> name <= p[0]
  {
    var s, rest, want := Slashed(p), Slashed(p[1..]), "/" + name;
    assert s == "/" + p[0] + rest;
    assert forall k :: 0 <= k < |p[0]| ==> s[k + 1] == p[0][k];
    assert |s| > 1 + |p[0]| ==> s[1 + |p[0]|] == rest[0] == '/';
    if want <= s {
      assert forall k :: 0 <= k < |name| ==> name[k] == want[k + 1] == s[k + 1];
      assert |name| <= |p[0]|;
      assert name == p[0][..|name|];
    }
    if name <= p[0] {
      assert want == s[..|want|];
    }
  }

  /** A rendered path that starts with "/cpus/cpu@" starts with the two names. */
  lemma {:induction false} CpuPathSplits(p: seq<string>)
    requires AllValid(p) && p != [] && CPU_AT <= Slashed(p)
    ensures UnderCpu(p)
  {
    var s, rest := Slashed(p), Slashed(p[1..]);
    assert CPU_AT[..5] == "/" + "cpus" && CPU_AT[5..] == "/" + "cpu@";
    var tail := s[5..];
    assert s == "/" + "cpus" + tail by { assert s[..5] == CPU_AT[..5]; }
    assert tail[0] == s[5] == CPU_AT[5] == '/';
    assert "/" + p[0] + rest == "/" + "cpus" + tail + "";
    DropSlash(p[0], rest, "cpus", tail, "");
    EmptyAppend(tail);
    SplitComponent(p[0], rest, "cpus", tail);
    assert "/" + "cpu@" <= tail;
    FirstNamePrefix(p[1..], "cpu@");
  }

  lemma {:induction false} CpuPathIff(p: seq<string>)
    requires AllValid(p) && p != []
    ensures CPU_AT <= PathString(p) <==> UnderCpu(p)
    ensures CPUS <= PathString(p) <==> UnderCpus(p)
  {
    UnderCpusIff(p);
    PathStringIsSlashed(p);
    if CPU_AT <= Slashed(p) {
      CpuPathSplits(p);
    }
    if UnderCpu(p) {
      FirstNamePrefix(p[1..], "cpu@");
      assert CPU_AT == "/" + "cpus" + ("/" + "cpu@");
    }
  }

  // ---- crate_guest_fdt

  /** The node is a device, or lies above or below one. */
  predicate NearPath(path: seq<string>, devices: seq<seq<string>>) {
    exists k :: 0 <= k < |devices| && (devices[k] <= path || path <= devices[k])
  }

  /** What the guest is to have of the host: no memory, the wanted cpus, and what is near a device. */
  predicate Keeps(e: Entry, devices: seq<seq<string>>, cpus: seq<nat>) {
    && !("memory" <= e.data.name)
    && (UnderCpu(e.path) ==> HasAddressIn(e.data, cpus))
    && (UnderCpus(e.path) || NearPath(e.path, devices))
  }

  function Strings(devices: seq<seq<string>>): (names: seq<string>)
    ensures |names| == |devices|
  {
    seq(|devices|, k requires 0 <= k < |devices| => PathString(devices[k]))
  }

  predicate ValidPaths(devices: seq<seq<string>>) {
    forall k :: 0 <= k < |devices| ==> AllValid(devices[k])
  }

  /** The path tests against one device. */
  lemma {:induction false} PathTestsIff(p: seq<string>, q: seq<string>)
    requires AllValid(p) && AllValid(q) && p != []
    ensures var ps, qs := PathString(p), PathString(q);
      (ps == qs || (ContinuesAfter(ps, qs) && LevelAllows(qs, |p| + 1)) || ContinuesAfter(qs, ps)) <==> q <= p || p <= q
  {
    ContinuesIffPrefix(p, q);
    ContinuesIffPrefix(q, p);
    if PathString(p) == PathString(q) {
      PathStringInjective(p, q);
    }
    if ContinuesAfter(PathString(p), PathString(q)) {
      LevelImplied(p, PathString(q));
    }
    assert q <= p <==> q == p || q < p;
    assert p <= q <==> p == q || p < q;
  }

  lemma {:induction false} NearIff(p: seq<string>, devices: seq<seq<string>>)
    requires AllValid(p) && p != [] && ValidPaths(devices)
    ensures var ps, names := PathString(p), Strings(devices);
      (ps in names || IsDescendantOfPassthroughDevice(ps, |p| + 1, names) || IsAncestorOfPassthroughDevice(ps, names))
      <==> NearPath(p, devices)
  {
    var ps, names := PathString(p), Strings(devices);
    forall k | 0 <= k < |devices|
      ensures (ps == names[k] || (ContinuesAfter(ps, names[k]) && LevelAllows(names[k], |p| + 1))
               || ContinuesAfter(names[k], ps)) <==> devices[k] <= p || p <= devices[k]
    {
      PathTestsIff(p, devices[k]);
    }
    if NearPath(p, devices) {
      var k :| 0 <= k < |devices| && (devices[k] <= p || p <= devices[k]);
      assert ps == names[k] ==> ps in names;
    }
  }

  /** A node below the root, by its path. */
  function EntryOf(t: Forest, j: nat): Entry
    requires IsTree(t) && 0 < j < Size(t)
  {
    Entry(TreePath(t, j), Flatten(t, 1)[j].data)
  }

  /** A node below the root is kept if and only if the guest is to have it. */
  lemma {:induction false} GuestKeepsIff(t: Forest, devices: seq<seq<string>>, cpus: seq<nat>, j: nat)
    requires ValidTree(t) && 0 < j < Size(t) && ValidPaths(devices)
    ensures GuestMask(t, Strings(devices), cpus)[j] <==> Keeps(EntryOf(t, j), devices, cpus)
  {
    var p := TreePath(t, j);
    NodeAt(t, j);
    CpuPathIff(p);
    NearIff(p, devices);
  }

  /** Whatever lies above a node that the guest is to have is to be had too. */
  ghost predicate AboveKept(es: seq<Entry>, devices: seq<seq<string>>, cpus: seq<nat>) {
    forall i, j :: 0 <= i < |es| && 0 <= j < |es| && es[i].path < es[j].path && Keeps(es[j], devices, cpus) ==>
      Keeps(es[i], devices, cpus)
  }

  lemma {:induction false} EntryBelow(t: Forest, j: nat)
    requires IsTree(t) && 0 < j < Size(t)
    ensures Size(t) == 1 + Size(t.children) && EntriesOf(t.children, [])[j - 1] == EntryOf(t, j)
  {
    BelowRoot(t, j);
    EntryAt(t.children, [], 2, j - 1);
  }

  lemma {:induction false} GuestMaskIs(t: Forest, devices: seq<seq<string>>, cpus: seq<nat>, k: nat)
    requires ValidTree(t) && k < Size(t.children) && ValidPaths(devices)
    ensures Size(t) == 1 + Size(t.children)
    ensures GuestMask(t, Strings(devices), cpus)[1..][k] <==> Keeps(EntriesOf(t.children, [])[k], devices, cpus)
  {
    assert Size(t.siblings) == 0;
    EntryBelow(t, k + 1);
    GuestKeepsIff(t, devices, cpus, k + 1);
  }

  /** The nodes kept are the ones to be had, and they are closed if and only if what lies above them is had. */
  lemma {:induction false} GuestSelection(t: Forest, devices: seq<seq<string>>, cpus: seq<nat>)
    requires ValidTree(t) && ValidPaths(devices)
    ensures var es, keep := EntriesOf(t.children, []), GuestMask(t, Strings(devices), cpus);
      && keep[0] && |keep[1..]| == |es|
      && Select(es, keep[1..]) == Where(es, e => Keeps(e, devices, cpus))
      && (Closed(t, keep) <==> AboveKept(es, devices, cpus))
  {
    var es, keep := EntriesOf(t.children, []), GuestMask(t, Strings(devices), cpus);
    assert Size(t.siblings) == 0;
    NodeAt(t, 0);
    forall k | 0 <= k < |es| ensures keep[1..][k] <==> Keeps(es[k], devices, cpus) {
      GuestMaskIs(t, devices, cpus, k);
    }
    SelectIsWhere(es, keep[1..], e => Keeps(e, devices, cpus));
    ClosedBelowRoot(t, keep);
    ClosedByPaths(t.children, keep[1..]);
  }

  lemma {:induction false} ClosedByPaths(f: Forest, keep: seq<bool>)
    requires ValidNames(f) && |keep| == Size(f)
    ensures var es := EntriesOf(f, []);
      Closed(f, keep) <==>
      forall i, j :: 0 <= i < |es| && 0 <= j < |es| && es[i].path < es[j].path && keep[j] ==> keep[i]
  {
    var es := EntriesOf(f, []);
    forall i: nat, j: nat | i < |es| && j < |es| ensures IsAncestor(f, i, j) <==> es[i].path < es[j].path {
      EntryAt(f, [], 0, i);
      EntryAt(f, [], 0, j);
      AncestorIsPrefix(f, [], i, j);
    }
  }

  /**
   * `crate_guest_fdt` from end to end: a reader of the stream finds the root and exactly the nodes the guest is
   * to have, each under its host path with its host properties and in host order, if and only if whatever lies
   * above those is to be had too.
   */
  lemma {:induction false} GuestIsReadIff(t: Forest, devices: seq<seq<string>>, cpus: seq<nat>)
    requires ValidTree(t) && ValidPaths(devices)
    ensures Levelled(Flatten(t, 1))
    ensures var nodes, es := Flatten(t, 1), EntriesOf(t.children, []);
      var out := Finish(Emit(START, Select(nodes, ListMask(nodes, Strings(devices), cpus))));
      && out.Some?
      && NodesRead(out.value) == [Shown([], t.data.props)] + ShownAll(Where(es, e => Keeps(e, devices, cpus)))
      <==> AboveKept(es, devices, cpus)
  {
    ListMaskIsGuestMask(t, Strings(devices), cpus);
    GuestSelection(t, devices, cpus);
    SelectionIsReadIff(t, GuestMask(t, Strings(devices), cpus));
  }
}
