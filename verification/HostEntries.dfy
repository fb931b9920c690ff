/** The tree that `update_cpu_node` writes, as a reader of it finds it. */
module HostEntries {
  import opened Basics
  import opened CpuNodes
  import opened DeviceTree
  import opened Entries
  import opened FdtStream
  import opened GuestEntries
  import opened GuestFdt
  import opened Listings
  import opened NodePaths

  /** What is taken from the host: all under "/cpus" but the cpus that are not wanted, and what is below those. */
  predicate FromHost(e: Entry, cpus: seq<nat>) {
    UnderCpus(e.path) && (UnderCpu(e.path) ==> HasAddressIn(e.data, cpus))
  }

  predicate FromGuest(e: Entry) {
    !UnderCpus(e.path)
  }

  ghost predicate AboveTaken(es: seq<Entry>, cpus: seq<nat>) {
    forall i, j :: 0 <= i < |es| && 0 <= j < |es| && es[i].path < es[j].path && FromHost(es[j], cpus) ==>
      FromHost(es[i], cpus)
  }

  lemma {:induction false} ValidEntry(f: Forest, k: nat)
    requires ValidNames(f) && k < Size(f)
    ensures var e := EntriesOf(f, [])[k];
      e == Entry(PathAt(f, [], k), Flatten(f, 2)[k].data) && e.path != [] && AllValid(e.path)
  {
    EntryAt(f, [], 2, k);
    PathAtValid(f, [], k);
    PathShape(f, [], k);
  }

  lemma {:induction false} HostSelection(f: Forest, cpus: seq<nat>)
    requires ValidNames(f)
    ensures var es := EntriesOf(f, []);
      && Select(es, CpuMask(f, cpus)) == Where(es, e => FromHost(e, cpus))
      && (Closed(f, CpuMask(f, cpus)) <==> AboveTaken(es, cpus))
  {
    var es, keep := EntriesOf(f, []), CpuMask(f, cpus);
    forall k | 0 <= k < |es| ensures keep[k] <==> FromHost(es[k], cpus) {
      ValidEntry(f, k);
      CpuPathIff(es[k].path);
    }
    SelectIsWhere(es, keep, e => FromHost(e, cpus));
    ClosedByPaths(f, keep);
  }

  lemma {:induction false} GuestRest(f: Forest)
    requires ValidNames(f)
    ensures var es := EntriesOf(f, []); Select(es, NonCpuMask(f)) == Where(es, FromGuest)
  {
    var es, keep := EntriesOf(f, []), NonCpuMask(f);
    forall k | 0 <= k < |es| ensures keep[k] <==> FromGuest(es[k]) {
      ValidEntry(f, k);
      CpuPathIff(es[k].path);
    }
    SelectIsWhere(es, keep, FromGuest);
  }

  /** The nodes of both trees, in the order in which they are to be found. */
  function BothEntries(g: Forest, h: Forest, cpus: seq<nat>): seq<Entry> {
    Where(EntriesOf(g, []), FromGuest) + Where(EntriesOf(h, []), e => FromHost(e, cpus))
  }

  lemma {:induction false} ClosedHostIsRead(guest: Forest, host: Forest, cpus: seq<nat>)
    requires ValidTree(guest) && ValidTree(host) && AboveTaken(EntriesOf(host.children, []), cpus)
    ensures NodesRead(Serialise(WithHostCpus(guest, host, cpus)))
      == [Shown([], guest.data.props)] + ShownAll(BothEntries(guest.children, host.children, cpus))
  {
    var g, h := guest.children, host.children;
    var pg, ph := Prune(g, NonCpuMask(g)), Prune(h, CpuMask(h, cpus));
    HostSelection(h, cpus);
    GuestRest(g);
    NonCpuClosed(g);
    EntriesPrune(g, NonCpuMask(g), []);
    EntriesPrune(h, CpuMask(h, cpus), []);
    EntriesAppend(pg, ph, []);
    PruneNoRoot(g, NonCpuMask(g));
    PruneNoRoot(h, CpuMask(h, cpus));
    AppendNoRoot(pg, ph);
    TreeIsRead(WithHostCpus(guest, host, cpus));
  }

  /** A node of the guest that is left is under no "/cpus". */
  lemma {:induction false} RestIsElsewhere(g: Forest, k: nat)
    requires ValidNames(g) && k < |Select(EntriesOf(g, []), NonCpuMask(g))|
    ensures !UnderCpus(Select(EntriesOf(g, []), NonCpuMask(g))[k].path)
  {
    var m := SelectFrom(EntriesOf(g, []), NonCpuMask(g), k);
    ValidEntry(g, m);
    CpuPathIff(EntriesOf(g, [])[m].path);
  }

  lemma {:induction false} SameHostNode(h: Forest, cpus: seq<nat>, i: nat, k: nat)
    requires ValidNames(h) && i < Size(h) && k < |Select(EntriesOf(h, []), CpuMask(h, cpus))|
    requires Select(EntriesOf(h, []), CpuMask(h, cpus))[k].path == EntriesOf(h, [])[i].path
    ensures CpuMask(h, cpus)[i]
  {
    var m := SelectFrom(EntriesOf(h, []), CpuMask(h, cpus), k);
    PathsDiffer(h, i, m);
  }

  lemma {:induction false} AboveHost(h: Forest, cpus: seq<nat>, i: nat, j: nat)
    requires ValidNames(h) && IsAncestor(h, i, j) && CpuMask(h, cpus)[j]
    ensures UnderCpus(EntriesOf(h, [])[i].path)
  {
    ValidEntry(h, i);
    ForestAncestor(h, i, j);
    CpuPathIff(EntriesOf(h, [])[i].path);
  }

  /** A forest with a list of paths has the path above one of them, and so has the list. */
  lemma {:induction false} AboveInList(h: Forest, b: Forest, all: seq<Entry>, q: nat, i: nat, j: nat) returns (k: nat)
    requires ValidNames(h) && IsAncestor(h, i, j) && ShownAll(EntriesOf(b, [])) == ShownAll(all)
    requires q < |all| && all[q].path == EntriesOf(h, [])[j].path
    ensures k < |all| && all[k].path == EntriesOf(h, [])[i].path
  {
    SamePath(EntriesOf(b, []), all, q);
    k := AboveIn(h, b, i, j, q);
    SamePath(EntriesOf(b, []), all, k);
  }

  lemma {:induction false} InSecond(rest: seq<Entry>, sel: seq<Entry>, all: seq<Entry>, q: nat)
    requires all == rest + sel && q < |sel|
    ensures |rest| + q < |all| && all[|rest| + q] == sel[q]
  {
  }

  lemma {:induction false} FromSecond(rest: seq<Entry>, sel: seq<Entry>, all: seq<Entry>, k: nat) returns (q: nat)
    requires all == rest + sel && k < |all| && UnderCpus(all[k].path)
    requires forall q :: 0 <= q < |rest| ==> !UnderCpus(rest[q].path)
    ensures q < |sel| && sel[q] == all[k]
  {
    q := k - |rest|;
  }

  /** Where both parts of a list of nodes are told apart by their paths, what lies above a host node is taken too. */
  lemma {:induction false} SamePathsTaken(h: Forest, cpus: seq<nat>, b: Forest, rest: seq<Entry>, all: seq<Entry>,
        i: nat, j: nat)
    requires ValidNames(h) && IsAncestor(h, i, j) && CpuMask(h, cpus)[j]
    requires forall k :: 0 <= k < |rest| ==> !UnderCpus(rest[k].path)
    requires all == rest + Select(EntriesOf(h, []), CpuMask(h, cpus)) && ShownAll(EntriesOf(b, [])) == ShownAll(all)
    ensures CpuMask(h, cpus)[i]
  {
    var sel := Select(EntriesOf(h, []), CpuMask(h, cpus));
    var q := SelectTo(EntriesOf(h, []), CpuMask(h, cpus), j);
    InSecond(rest, sel, all, q);
    var above := AboveInList(h, b, all, |rest| + q, i, j);
    AboveHost(h, cpus, i, j);
    var k := FromSecond(rest, sel, all, above);
    SameHostNode(h, cpus, i, k);
  }

  lemma {:induction false} PathsDiffer(f: Forest, i: nat, j: nat)
    requires ValidNames(f) && i < Size(f) && j < Size(f) && EntriesOf(f, [])[i].path == EntriesOf(f, [])[j].path
    ensures i == j
  {
    EntryAt(f, [], 0, i);
    EntryAt(f, [], 0, j);
    AncestorIsPrefix(f, [], i, j);
  }

  /**
   * `update_cpu_node` from end to end: a reader finds the guest's nodes outside "/cpus" and then the host's under
   * it, but for unwanted cpus and what is below those, each under its own path with its own properties, if and
   * only if whatever lies above a host node that is taken is taken too.
   */
  lemma {:induction false} HostIsReadIff(guest: Forest, host: Forest, cpus: seq<nat>)
    requires ValidTree(guest) && ValidTree(host)
    ensures Levelled(Flatten(guest, 1)) && Levelled(Flatten(host, 1))
    ensures var g, h := Flatten(guest, 1), Flatten(host, 1);
      var out := Finish(HostEmit(Emit(START, Select(g, GuestListMask(g))), Select(h, HostListMask(h, cpus))));
      && out.Some?
      && NodesRead(out.value)
         == [Shown([], guest.data.props)] + ShownAll(BothEntries(guest.children, host.children, cpus))
      <==> AboveTaken(EntriesOf(host.children, []), cpus)
  {
    HostSelection(host.children, cpus);
    CpuClosedIff(host.children, cpus);
    HostCpusIff(guest, host, cpus);
    if AboveTaken(EntriesOf(host.children, []), cpus) {
      ClosedHostIsRead(guest, host, cpus);
    } else {
      OpenHostIsNotRead(guest, host, cpus);
    }
  }

  lemma {:induction false} OpenHostIsNotRead(guest: Forest, host: Forest, cpus: seq<nat>)
    requires ValidTree(guest) && ValidTree(host) && !Closed(host.children, CpuMask(host.children, cpus))
    requires Levelled(Flatten(guest, 1)) && Levelled(Flatten(host, 1))
    ensures var g, h := Flatten(guest, 1), Flatten(host, 1);
      var out := Finish(HostEmit(Emit(START, Select(g, GuestListMask(g))), Select(h, HostListMask(h, cpus))));
      var both := [Shown([], guest.data.props)] + ShownAll(BothEntries(guest.children, host.children, cpus));
      out.Some? ==> NodesRead(out.value) != both
  {
    var g, h := guest.children, host.children;
    var kept := Select(Flatten(g, 2), NonCpuMask(g)) + Select(Flatten(h, 2), CpuMask(h, cpus));
    CpuStream(guest, host, cpus);
    NoRootSelected(g, 2, NonCpuMask(g));
    NoRootSelected(h, 2, CpuMask(h, cpus));
    if NoJump(1, kept) {
      var b, both := Build(kept, 2), ShownAll(BothEntries(g, h, cpus));
      BuiltNoRoot(kept, 2);
      TreeIsRead(Node(guest.data, b, Nil));
      if NodesRead(Serialise(Node(guest.data, b, Nil))) == [Shown([], guest.data.props)] + both {
        SameTail(Shown([], guest.data.props), ShownAll(EntriesOf(b, [])), both);
        var i: nat, j: nat :| IsAncestor(h, i, j) && CpuMask(h, cpus)[j] && !CpuMask(h, cpus)[i];
        HostSelection(h, cpus);
        GuestRest(g);
        var rest := Select(EntriesOf(g, []), NonCpuMask(g));
        forall k | 0 <= k < |rest| ensures !UnderCpus(rest[k].path) {
          RestIsElsewhere(g, k);
        }
        SamePathsTaken(h, cpus, b, rest, BothEntries(g, h, cpus), i, j);
      }
    }
  }
}
