/** The search for all devices that must be passed through together. */
module Passthrough {
  import opened Basics
  import opened DeviceTree
  import opened FdtStream
  import opened NodePaths
  import opened GuestFdt
  import opened Phandles
  import opened PhandleTable
  import opened Reachability

  // ---- the node cache

  function Cached(cache: NodeCache, path: string, node: FdtNode): NodeCache {
    cache[path := (if path in cache then cache[path] else []) + [node]]
  }

  function CacheOf(paths: seq<string>, nodes: seq<FdtNode>, n: nat): NodeCache
    requires n <= |nodes| == |paths|
  {
    if n == 0 then map[] else Cached(CacheOf(paths, nodes, n - 1), paths[n - 1], nodes[n - 1])
  }

  function NodeCacheOf(nodes: seq<FdtNode>): NodeCache
    requires Levelled(nodes)
  {
    CacheOf(ListedPaths(nodes), nodes, |nodes|)
  }

  /** `build_optimized_node_cache` */
  method BuildNodeCache(nodes: seq<FdtNode>) returns (cache: NodeCache)
    requires Levelled(nodes)
    ensures cache == NodeCacheOf(nodes)
  {
    cache := map[];
    for index := 0 to |nodes|
      invariant cache == CacheOf(ListedPaths(nodes), nodes, index)
    {
      var path := BuildNodePath(nodes, index);
      assert ListedPaths(nodes)[index] == path;
      var entry := if path in cache then cache[path] else [];
      cache := cache[path := entry + [nodes[index]]];
    }
  }

  /** The cache holds exactly the first `n` paths, each with its own node. */
  ghost predicate Caches(cache: NodeCache, paths: seq<string>, nodes: seq<FdtNode>, n: nat)
    requires |paths| == |nodes| && n <= |nodes|
  {
    && (forall i :: 0 <= i < n ==> paths[i] in cache && cache[paths[i]] == [nodes[i]])
    && forall p :: p in cache ==> p in paths[..n]
  }

  lemma {:induction false} CacheOneMore(cache: NodeCache, paths: seq<string>, nodes: seq<FdtNode>, n: nat)
    requires |paths| == |nodes| && n < |nodes| && Caches(cache, paths, nodes, n) && Distinct(paths)
    ensures Caches(Cached(cache, paths[n], nodes[n]), paths, nodes, n + 1)
  {
    assert paths[..n + 1] == paths[..n] + [paths[n]];
    EmptyAppend([nodes[n]]);
  }

  lemma {:induction false} CacheOfDistinct(paths: seq<string>, nodes: seq<FdtNode>, n: nat)
    requires n <= |nodes| == |paths| && Distinct(paths)
    ensures Caches(CacheOf(paths, nodes, n), paths, nodes, n)
  {
    if n > 0 {
      CacheOfDistinct(paths, nodes, n - 1);
      CacheOneMore(CacheOf(paths, nodes, n - 1), paths, nodes, n - 1);
    }
  }

  /** The paths of a tree, in the order of its nodes. */
  ghost function TreePaths(t: Forest): (paths: seq<string>)
    requires ValidTree(t)
    ensures |paths| == Size(t) && forall i :: 0 <= i < Size(t) ==> paths[i] == NodePath(t, i)
  {
    seq(Size(t), i requires 0 <= i < Size(t) => NodePath(t, i))
  }

  lemma {:induction false} TreePathsListed(t: Forest)
    requires ValidTree(t)
    ensures Levelled(Flatten(t, 1)) && |Flatten(t, 1)| == Size(t)
    ensures ListedPaths(Flatten(t, 1)) == TreePaths(t)
  {
    forall i | 0 <= i < Size(t) ensures ListedPath(Flatten(t, 1), i) == TreePaths(t)[i] {
      BuiltPathIsNodePath(t, i);
    }
  }

  lemma {:induction false} TreePathsDistinct(t: Forest)
    requires ValidTree(t)
    ensures Distinct(TreePaths(t))
  {
    forall i, j | 0 <= i < j < Size(t) ensures TreePaths(t)[i] != TreePaths(t)[j] {
      ContinuesIffAncestor(t, i, j);
    }
  }

  /** With valid names the cache has one entry per node of the tree, and it holds that node alone. */
  lemma {:induction false} CacheOfTree(t: Forest)
    requires ValidTree(t)
    ensures Levelled(Flatten(t, 1))
    ensures var cache := NodeCacheOf(Flatten(t, 1));
      && (forall p :: p in cache <==> exists i :: 0 <= i < Size(t) && p == NodePath(t, i))
      && forall i :: 0 <= i < Size(t) ==> cache[NodePath(t, i)] == [Flatten(t, 1)[i]]
  {
    TreePathsListed(t);
    TreePathsDistinct(t);
    CacheOfDistinct(TreePaths(t), Flatten(t, 1), Size(t));
    CachedPaths(t, CacheOf(TreePaths(t), Flatten(t, 1), Size(t)));
  }

  lemma {:induction false} CachedPaths(t: Forest, cache: NodeCache)
    requires ValidTree(t) && |Flatten(t, 1)| == Size(t)
    requires Caches(cache, TreePaths(t), Flatten(t, 1), Size(t))
    ensures forall p :: p in cache <==> exists i :: 0 <= i < Size(t) && p == NodePath(t, i)
    ensures forall i :: 0 <= i < Size(t) ==> cache[NodePath(t, i)] == [Flatten(t, 1)[i]]
  {
    forall i | 0 <= i < Size(t) ensures NodePath(t, i) in cache && cache[NodePath(t, i)] == [Flatten(t, 1)[i]] {
      assert TreePaths(t)[i] in cache;
    }
    forall p | p in cache ensures exists i :: 0 <= i < Size(t) && p == NodePath(t, i) {
      var i :| 0 <= i < Size(t) && TreePaths(t)[i] == p;
      assert p == NodePath(t, i);
    }
  }

  // ---- descendants

  function SearchPrefix(parent: string): string {
    if parent == ROOT then ROOT else parent + "/"
  }

  predicate IsBelow(path: string, parent: string) {
    SearchPrefix(parent) < path
  }

  /** `get_descendant_nodes_by_path`, in some order of the keys. */
  method GetDescendants(cache: NodeCache, parent: string) returns (paths: seq<string>)
    ensures forall p :: p in paths <==> p in cache && IsBelow(p, parent)
  {
    paths := [];
    var todo := cache.Keys;
    while todo != {}
      invariant todo <= cache.Keys
      invariant forall p :: p in paths <==> p in cache.Keys - todo && IsBelow(p, parent)
      decreases todo
    {
      var path :| path in todo;
      todo := todo - {path};
      if SearchPrefix(parent) <= path && |path| > |SearchPrefix(parent)| {
        paths := paths + [path];
      }
    }
  }

  lemma {:induction false} BelowIsContinues(ps: string, qs: string)
    requires ps != "" && qs != "" && (ps == ROOT || ps[|ps| - 1] != '/')
    ensures IsBelow(ps, qs) <==> ContinuesAfter(ps, qs)
  {
    if qs != ROOT {
      var prefix := qs + "/";
      assert prefix <= ps <==> qs <= ps && |ps| > |qs| && ps[|qs|] == '/' by {
        assert prefix[..|qs|] == qs && prefix[|qs|] == '/';
        assert |ps| > |qs| ==> (ps[..|qs| + 1] == prefix <==> ps[..|qs|] == qs && ps[|qs|] == '/');
      }
    }
  }

  /** On the paths of a tree with valid names, "below" is the ancestor relation. */
  lemma {:induction false} BelowIffAncestor(t: Forest, i: nat, j: nat)
    requires ValidTree(t) && i < Size(t) && j < Size(t)
    ensures IsBelow(NodePath(t, j), NodePath(t, i)) <==> IsAncestor(t, i, j)
  {
    NoTrailingSlash(t, i);
    NoTrailingSlash(t, j);
    BelowIsContinues(NodePath(t, j), NodePath(t, i));
    ContinuesIffAncestor(t, i, j);
  }

  lemma {:induction false} SlashedEnd(p: seq<string>)
    requires AllValid(p) && p != []
    ensures Slashed(p)[|Slashed(p)| - 1] != '/'
  {
    var name, rest := p[0], Slashed(p[1..]);
    if |p| > 1 {
      SlashedEnd(p[1..]);
      SlashedLonger(p[1..]);
      assert Slashed(p)[|Slashed(p)| - 1] == rest[|rest| - 1];
    } else {
      assert rest == "" && name[|name| - 1] in name;
      assert Slashed(p)[|Slashed(p)| - 1] == name[|name| - 1];
    }
  }

  lemma {:induction false} NoTrailingSlash(t: Forest, j: nat)
    requires ValidTree(t) && j < Size(t)
    ensures var ps := NodePath(t, j); ps != "" && (ps == ROOT || ps[|ps| - 1] != '/')
  {
    TreePathsValid(t, j);
    PathStringIsSlashed(TreePath(t, j));
    if TreePath(t, j) != [] {
      SlashedLonger(TreePath(t, j));
      SlashedEnd(TreePath(t, j));
    }
  }

  // ---- the search

  /** A listed device, or a node below one. */
  ghost predicate IsBase(path: string, seeds: seq<string>, cache: NodeCache) {
    path in seeds || BelowSome(path, seeds, |seeds|, cache)
  }

  ghost predicate BelowSome(path: string, seeds: seq<string>, n: nat, cache: NodeCache)
    requires n <= |seeds|
  {
    path in cache && exists k :: 0 <= k < n && IsBelow(path, seeds[k])
  }

  ghost function Base(seeds: seq<string>, cache: NodeCache): string -> bool {
    path => IsBase(path, seeds, cache)
  }

  ghost function Dependency(pm: PhandleMap, cache: NodeCache): (string, string) -> bool {
    (device, path) => DependsOn(device, path, pm, cache)
  }

  /** A chain of dependencies leads from a configured device, or a node below one, to `path`. */
  ghost predicate IsRequired(path: string, initial: seq<string>, pm: PhandleMap, cache: NodeCache) {
    Reachable(path, Base(initial, cache), Dependency(pm, cache))
  }

  predicate Distinct(s: seq<string>) {
    forall i, j :: 0 <= i < j < |s| ==> s[i] != s[j]
  }

  /** The paths not seen before, once each, and everything seen after them. */
  method TakeUnseen(paths: seq<string>, seen: set<string>) returns (unseen: seq<string>, all: set<string>)
    ensures all == seen + set p | p in paths
    ensures forall p :: p in unseen <==> p in paths && p !in seen
    ensures Distinct(unseen)
  {
    unseen, all := [], seen;
    for k := 0 to |paths|
      invariant all == seen + set p | p in paths[..k]
      invariant forall p :: p in unseen <==> p in paths[..k] && p !in seen
      invariant Distinct(unseen)
    {
      assert paths[..k + 1] == paths[..k] + [paths[k]];
      if paths[k] !in all {
        unseen := unseen + [paths[k]];
        all := all + {paths[k]};
      }
    }
    assert paths[..|paths|] == paths;
  }

  lemma {:induction false} DependencyIsTarget(device: string, dep: string, pm: PhandleMap, cache: NodeCache)
    requires DependsOn(device, dep, pm, cache)
    ensures exists h :: h in pm && pm[h].path == dep
  {
    var i :| 0 <= i < |cache[device]| && RefersTo(cache[device][i].data, dep, pm);
    var d := cache[device][i].data;
    var k :| 0 <= k < |d.props| && PropRefersTo(d.props[k], dep, pm);
  }

  /** One device's dependencies, related to `step`, all of them among `targets`. */
  method Dependencies(device: string, pm: PhandleMap, cache: NodeCache,
                      ghost step: (string, string) -> bool, ghost targets: set<string>)
    returns (paths: seq<string>)
    requires step == Dependency(pm, cache) && targets == set h | h in pm :: pm[h].path
    ensures forall p :: p in paths <==> step(device, p)
    ensures forall p :: p in paths ==> p in targets
  {
    paths := FindDeviceDependencies(device, pm, cache);
    forall p | p in paths ensures p in targets {
      DependencyIsTarget(device, p, pm, cache);
    }
  }

  /** What the work queue keeps: all that is configured is reachable, and processed or still queued. */
  ghost predicate QueueInv(configured: set<string>, processed: set<string>, queue: seq<string>,
                           base: string -> bool, step: (string, string) -> bool) {
    && (forall p :: p in configured <==> p in processed || p in queue)
    && (forall p :: p in configured ==> Reachable(p, base, step))
    && (forall p, q :: p in processed && step(p, q) ==> q in configured)
  }

  lemma {:induction false} QueueStep(configured: set<string>, processed: set<string>, queue: seq<string>,
        device: string, dependencies: seq<string>, unseen: seq<string>, configured': set<string>,
        base: string -> bool, step: (string, string) -> bool)
    requires QueueInv(configured, processed, queue + [device], base, step)
    requires forall p :: p in dependencies <==> step(device, p)
    requires configured' == configured + set p | p in dependencies
    requires forall p :: p in unseen <==> p in dependencies && p !in configured
    ensures QueueInv(configured', processed + {device}, queue + unseen, base, step)
  {
    forall p | p in dependencies ensures Reachable(p, base, step) {
      assert device in queue + [device];
      ReachableStep(device, p, base, step);
    }
    forall p ensures p in configured' <==> p in processed + {device} || p in queue + unseen {
      assert p in queue + [device] <==> p in queue || p == device;
    }
  }

  lemma {:induction false} QueueSkip(configured: set<string>, processed: set<string>, queue: seq<string>,
        device: string, base: string -> bool, step: (string, string) -> bool)
    requires QueueInv(configured, processed, queue + [device], base, step) && device in processed
    ensures QueueInv(configured, processed, queue, base, step)
  {
    forall p ensures p in queue + [device] <==> p in queue || p == device {
    }
  }

  lemma {:induction false} QueueDone(configured: set<string>, processed: set<string>, base: string -> bool,
        step: (string, string) -> bool)
    requires QueueInv(configured, processed, [], base, step)
    requires forall p :: base(p) ==> p in configured
    ensures forall p :: p in configured <==> Reachable(p, base, step)
  {
    ReachableIsLeast(configured, base, step);
  }

  /** `found` lists, once each, what was configured beyond `start`. */
  ghost predicate FoundInv(start: set<string>, configured: set<string>, found: seq<string>) {
    && start <= configured
    && (forall p :: p in found <==> p in configured - start)
    && Distinct(found)
  }

  lemma {:induction false} FoundStep(start: set<string>, configured: set<string>, found: seq<string>,
        paths: seq<string>, unseen: seq<string>, configured': set<string>)
    requires FoundInv(start, configured, found)
    requires configured' == configured + set p | p in paths
    requires (forall p :: p in unseen <==> p in paths && p !in configured) && Distinct(unseen)
    ensures FoundInv(start, configured', found + unseen)
  {
    forall i, j | 0 <= i < j < |found + unseen| ensures (found + unseen)[i] != (found + unseen)[j] {
      if i < |found| <= j {
        assert found[i] in found && unseen[j - |found|] in unseen;
      }
    }
  }

  /** Phase 2: the work queue that follows dependencies from the devices in `start`. */
  method FollowDependencies(start: set<string>, pm: PhandleMap, cache: NodeCache, ghost base: string -> bool)
    returns (configured: set<string>, found: seq<string>)
    requires forall p :: p in start <==> base(p)
    ensures forall p :: p in configured <==> Reachable(p, base, Dependency(pm, cache))
    ensures FoundInv(start, configured, found)
  {
    configured, found := start, [];
    var queue := ToSeq(start);
    var processed: set<string> := {};
    ghost var step := Dependency(pm, cache);
    ghost var targets := set h | h in pm :: pm[h].path;
    forall p | p in start ensures Reachable(p, base, step) {
      ReachableBase(p, base, step);
    }
    while queue != []
      invariant QueueInv(configured, processed, queue, base, step)
      invariant configured <= start + targets
      invariant FoundInv(start, configured, found)
      decreases start + targets - processed, |queue|
    {
      var device := queue[|queue| - 1];
      ghost var queue0 := queue;
      queue := queue[..|queue| - 1];
      assert queue0 == queue + [device] && device in queue0;
      if device in processed {
        QueueSkip(configured, processed, queue, device, base, step);
        continue;
      }
      var dependencies := Dependencies(device, pm, cache, step, targets);
      var unseen, all := TakeUnseen(dependencies, configured);
      QueueStep(configured, processed, queue, device, dependencies, unseen, all, base, step);
      FoundStep(start, configured, found, dependencies, unseen, all);
      processed := processed + {device};
      found := found + unseen;
      queue := queue + unseen;
      configured := all;
    }
    QueueDone(configured, processed, base, step);
  }

  /** Phases 1 and 3: the listed devices and everything below them. */
  method WithDescendants(seeds: seq<string>, cache: NodeCache) returns (all: set<string>, added: seq<string>)
    ensures forall p :: p in all <==> IsBase(p, seeds, cache)
    ensures FoundInv((set p | p in seeds), all, added)
  {
    all, added := set p | p in seeds, [];
    ghost var start := all;
    for k := 0 to |seeds|
      invariant forall p :: p in all <==> p in start || BelowSome(p, seeds, k, cache)
      invariant FoundInv(start, all, added)
    {
      var paths := GetDescendants(cache, seeds[k]);
      assert forall p :: BelowSome(p, seeds, k + 1, cache) <==> BelowSome(p, seeds, k, cache) || p in paths;
      var unseen, all' := TakeUnseen(paths, all);
      FoundStep(start, all, added, paths, unseen, all');
      added := added + unseen;
      all := all';
    }
  }

  /** The elements of a set, in some order. */
  method ToSeq(s: set<string>) returns (q: seq<string>)
    ensures forall p :: p in q <==> p in s
  {
    q := [];
    var todo := s;
    while todo != {}
      invariant todo <= s && forall p :: p in q <==> p in s - todo
      decreases todo
    {
      var p :| p in todo;
      q := q + [p];
      todo := todo - {p};
    }
  }

  /** `Vec::retain` with the names to drop. */
  method Retain(names: seq<string>, drop: set<string>) returns (kept: seq<string>)
    ensures forall p :: p in kept <==> p in names && p !in drop
    ensures Distinct(names) ==> Distinct(kept)
  {
    kept := [];
    for k := 0 to |names|
      invariant forall p :: p in kept <==> p in names[..k] && p !in drop
      invariant Distinct(names) ==> Distinct(kept)
    {
      assert names[..k + 1] == names[..k] + [names[k]];
      if names[k] !in drop {
        kept := kept + [names[k]];
      }
    }
    assert names[..|names|] == names;
  }

  lemma {:induction false} JoinDistinct(a: seq<string>, b: seq<string>)
    requires Distinct(b) && forall p :: p in b ==> p !in a
    ensures Distinct(a) ==> Distinct(a + b)
  {
    assert forall k :: 0 <= k < |b| ==> b[k] in b;
  }

  /**
   * `find_all_passthrough_devices`: what is left of the reachable devices without the excluded ones, what
   * lies below those, and the root. The order of the queue and of the sets does not matter.
   */
  method FindAllPassthroughDevices(initial: seq<string>, excluded: seq<string>, pm: PhandleMap, cache: NodeCache)
    returns (names: seq<string>)
    ensures forall p :: p in names <==>
      IsRequired(p, initial, pm, cache) && !IsBase(p, excluded, cache) && p != ROOT
    ensures Distinct(initial) ==> Distinct(names)
  {
    var configured, additional := WithDescendants(initial, cache);
    var reached, dependencies := FollowDependencies(configured, pm, cache, Base(initial, cache));
    var allExcluded, _ := WithDescendants(excluded, cache);
    names := initial + additional + dependencies;
    assert forall p :: p in names <==> p in reached;
    assert Distinct(initial) ==> Distinct(names) by {
      JoinDistinct(initial, additional);
      JoinDistinct(initial + additional, dependencies);
    }
    if allExcluded != {} {
      names := Retain(names, allExcluded);
    }
    names := Retain(names, {ROOT});
  }

  // ---- the search and the guest tree together

  /** What the search promises of its result. */
  ghost predicate IsSearchResult(names: seq<string>, initial: seq<string>, excluded: seq<string>,
                                 pm: PhandleMap, cache: NodeCache) {
    forall p :: p in names <==> IsRequired(p, initial, pm, cache) && !IsBase(p, excluded, cache) && p != ROOT
  }

  lemma {:induction false} DependencyIsListed(names: seq<string>, initial: seq<string>, excluded: seq<string>,
        pm: PhandleMap, cache: NodeCache, device: string, path: string)
    requires IsSearchResult(names, initial, excluded, pm, cache)
    requires IsRequired(device, initial, pm, cache) && DependsOn(device, path, pm, cache)
    requires !IsBase(path, excluded, cache) && path != ROOT
    ensures path in names
  {
    ReachableStep(device, path, Base(initial, cache), Dependency(pm, cache));
  }

  lemma {:induction false} ListedIsSelected(t: Forest, names: seq<string>, cpus: seq<nat>, i: nat)
    requires IsTree(t) && i < Size(t) && NodePath(t, i) in names
    requires !(MEMORY <= Flatten(t, 1)[i].data.name) && !(CPUS <= NodePath(t, i))
    ensures GuestMask(t, names, cpus)[i]
  {
  }

  /**
   * Whatever a required device depends on is in the guest tree, with every node above it, unless it is
   * excluded, or one of the nodes on its path is skipped as a memory or cpu node.
   */
  lemma {:induction false} DependenciesReachGuest(t: Forest, names: seq<string>, initial: seq<string>,
        excluded: seq<string>, pm: PhandleMap, cpus: seq<nat>, device: string, i: nat, j: nat)
    requires ValidTree(t) && 0 < i < Size(t) && (j == i || IsAncestor(t, j, i))
    requires Levelled(Flatten(t, 1))
    requires var cache := NodeCacheOf(Flatten(t, 1));
      && IsSearchResult(names, initial, excluded, pm, cache)
      && IsRequired(device, initial, pm, cache)
      && DependsOn(device, NodePath(t, i), pm, cache)
      && !IsBase(NodePath(t, i), excluded, cache)
    requires !(MEMORY <= Flatten(t, 1)[i].data.name) && !(CPUS <= NodePath(t, i))
    requires !Blocked(Flatten(t, 1)[j].data, NodePath(t, j), cpus)
    ensures GuestMask(t, names, cpus)[j]
  {
    ContinuesIffAncestor(t, 0, i);
    DependencyIsListed(names, initial, excluded, pm, NodeCacheOf(Flatten(t, 1)), device, NodePath(t, i));
    ListedIsSelected(t, names, cpus, i);
    if j != i {
      SelectedAncestor(t, names, cpus, j, i);
    }
  }

  // ---- the search on a tree, with its own phandle table

  /** The paths of a tree's nodes. */
  ghost function PathSet(t: Forest): (paths: set<string>)
    requires IsTree(t)
    ensures forall p :: p in paths <==> exists i: nat :: i < Size(t) && p == NodePath(t, i)
  {
    set i: nat | i < Size(t) :: NodePath(t, i)
  }

  ghost predicate AllPaths(t: Forest, names: seq<string>)
    requires IsTree(t)
  {
    forall p :: p in names ==> p in PathSet(t)
  }

  lemma {:induction false} TargetsArePaths(t: Forest, pm: PhandleMap)
    requires ValidTree(t) && Levelled(Flatten(t, 1)) && PhandlesOf(Flatten(t, 1)) == Some(pm)
    ensures forall h :: h in pm ==> pm[h].path in PathSet(t)
  {
    var nodes := Flatten(t, 1);
    TreePathsListed(t);
    forall h | h in pm ensures pm[h].path in PathSet(t) {
      var i := EntryNode(ListedPaths(nodes), nodes, |nodes|, h, pm);
      assert pm[h].path == TreePaths(t)[i] == NodePath(t, i);
    }
  }

  /** From configured node paths the search finds node paths only. */
  lemma {:induction false} FoundArePaths(t: Forest, names: seq<string>, initial: seq<string>, excluded: seq<string>,
        pm: PhandleMap)
    requires ValidTree(t) && Levelled(Flatten(t, 1)) && PhandlesOf(Flatten(t, 1)) == Some(pm)
    requires AllPaths(t, initial) && IsSearchResult(names, initial, excluded, pm, NodeCacheOf(Flatten(t, 1)))
    ensures AllPaths(t, names)
  {
    var cache, s := NodeCacheOf(Flatten(t, 1)), PathSet(t);
    CacheOfTree(t);
    TargetsArePaths(t, pm);
    var base, step := Base(initial, cache), Dependency(pm, cache);
    forall x | base(x) ensures x in s {
      assert IsBase(x, initial, cache);
    }
    forall x, y | x in s && step(x, y) ensures y in s {
      DependencyIsTarget(x, y, pm, cache);
    }
    ReachableIsLeast(s, base, step);
    forall p | p in names ensures p in s {
      assert IsRequired(p, initial, pm, cache);
    }
  }

  lemma {:induction false} DevicesOf(t: Forest, names: seq<string>) returns (devices: seq<nat>)
    requires IsTree(t) && AllPaths(t, names)
    ensures |devices| == |names|
    ensures forall k :: 0 <= k < |names| ==> devices[k] < Size(t) && names[k] == NodePath(t, devices[k])
  {
    if names == [] {
      devices := [];
    } else {
      var n := |names| - 1;
      var init := DevicesOf(t, names[..n]);
      assert names[n] in names;
      var i: nat :| i < Size(t) && names[n] == NodePath(t, i);
      devices := init + [i];
    }
  }

  /**
   * The whole chain: the devices found from configured node paths are nodes, and the guest tree written for
   * them is the host tree pruned to what is kept iff nothing that is kept is cut off, which the tree, the
   * devices and the cpus decide.
   */
  lemma {:induction false} SearchedGuestIff(t: Forest, names: seq<string>, initial: seq<string>,
        excluded: seq<string>, pm: PhandleMap, cpus: seq<nat>) returns (devices: seq<nat>)
    requires ValidTree(t) && Levelled(Flatten(t, 1)) && PhandlesOf(Flatten(t, 1)) == Some(pm)
    requires AllPaths(t, initial) && IsSearchResult(names, initial, excluded, pm, NodeCacheOf(Flatten(t, 1)))
    ensures |devices| == |names|
    ensures forall k :: 0 <= k < |names| ==> devices[k] < Size(t) && names[k] == NodePath(t, devices[k])
    ensures var nodes := Flatten(t, 1);
      Finish(Emit(START, Select(nodes, ListMask(nodes, names, cpus))))
        == Some(Serialise(Prune(t, GuestMask(t, names, cpus))))
      <==> NothingCutOff(t, devices, cpus)
  {
    FoundArePaths(t, names, initial, excluded, pm);
    devices := DevicesOf(t, names);
    GuestTreeIff(t, names, cpus);
    QuietIff(t, names, cpus, devices);
  }
}
