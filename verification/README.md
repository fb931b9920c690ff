# Axvisor in Dafny: guest device trees, block windows, inter-VM channels, the shell and devspace

This project models the parts of the Axvisor hypervisor whose behaviour is easiest to get wrong and
proves what they promise, for every input, every run or every reachable state:

* **Guest device trees** (`kernel/src/vmm/fdt`). The host tree arrives as a flat preorder list of
  nodes with levels; paths are rebuilt from levels, passthrough devices are found by following phandle
  references, and guest trees are written as a begin/property/end stream with a stack. `DeviceTree` has
  real trees (`Forest`), their listing (`Flatten`) and pruning (`Prune`); every emitter is tied to them
  from end to end.
* **Block windows** (`modules/axfs`). A cursor over sectors, a bounded window over that cursor, and the
  loops the file systems run on top. The specification is one pure step function, `BlockSpec.Step`.
* **Inter-VM channels** (`kernel/src/vmm/ivc.rs`, `hvc.rs`). A state machine whose steps are the critical
  sections of the channel table, with the frames they own.
* **The shell** (`kernel/src/shell`). Line editor, history, tokenizer, option parser.
* **Devspace sections** (`xtask/src/devspace.rs`) and **the periodic timer** (`modules/axruntime`).

What a written tree, a rendered section or a parsed command line amounts to is said in terms of its reader:
`Entries` reads a stream back as nodes by path, `DevspaceEntries` reads a section line by line, `CommandLaws` says
of each option, flag and argument when it is there, and `Typing` keeps a plain text with a cursor beside the
line editor.

Code that updates state in place is a class or a method with loops; it is proved against pure functions,
and the properties are lemmas about those functions.

## What the code does and does not promise

Where a law one would expect fails, the project proves exactly when it holds.

* Skipping nodes while writing a tree yields the pruned tree iff every kept node's ancestors are kept
  (`FdtStream.EmitSelectedIffClosed`). Otherwise either a level is jumped over and the closing assertion fails,
  or the stream is that of the one tree that the kept nodes list (`Listings.StreamOfListing`), in which each
  node hangs below the last one before it one level above (`Listings.WrittenParent`): a child whose parent was
  skipped silently moves to another one.
* For `crate_guest_fdt` this comes down to one condition: nothing that is kept lies below a memory node or
  an unwanted cpu node (`GuestFdt.GuestTreeIff`), which can be read off the tree, the devices and the cpus
  (`GuestFdt.QuietIff`). It fails on `/{memory@0{d}}` with the device `/memory@0/d`, where the source panics
  (`CutOff.BarePanics`), and on `/{a, memory@0{d}}` with `/a` and `/memory@0/d`, where `d` becomes a child of
  `a` (`CutOff.BesideIsMisplaced`). Likewise for `update_cpu_node` (`CpuNodes.HostCpusIff`) and `update_fdt`
  (`MemoryNode.UpdatedTreeIff`), which adds no memory node when only the root is left. What they write where
  their conditions fail is said by `CpuNodes.CpuStream` and `MemoryNode.StreamWithMemory`, and `CutOffUpdates`
  has for each a tree on which it panics and one on which it moves a node to another parent.
* Read back from the streams, the three trees are these, each if and only if whatever lies above a node that is
  to be there is to be there too: the host's nodes that are not named like memory, are near a device or under
  `/cpus`, and under `/cpus/cpu@` have a wanted address (`GuestEntries.GuestIsReadIff`); the guest's nodes
  outside `/cpus` and the host's wanted ones under it (`HostEntries.HostIsReadIff`); all nodes but memory nodes,
  and a new memory node last (`UpdatedEntries.UpdatedIsReadIff`).
* A reference takes as many specifiers as its target asks for under the kind that the property's name refers to
  (`CellCounts.FoundTakesOwn`). The counts collected for `#iommu-cells` are never asked for: in `iommus`, every
  cell that happens to be a handle is taken for a reference (`CellCounts.IommusIsUncounted`,
  `CellCounts.UncountedHandles`). Three properties that have a count, `interrupts` among them, are never followed
  (`CellCounts.CountedIsFollowedIff`).
* Replacing `" ro "` by `" rw "` in the boot arguments leaves a `" ro "` behind iff two occurrences share a
  blank (`BootArgs.ReadOnlyGoneIff`).
* A call of the ext4 adapter ends iff the window and the buffer have room for it, or a bad sector comes first,
  or the buffer is used up inside the window with the cursor on a bad sector; any other call runs for ever
  (`BlockAdapters.LoopEndsIff`). The window made for an unpartitioned disk is one sector too long: every
  transfer there fails (`BlockAdapters.WholeDiskFailsIff`), so that a FAT transfer on a good disk succeeds iff
  it keeps off that sector or starts behind it (`BlockAdapters.WholeDiskTransferIff`).
* While the table knows all users of every frame, a step frees a frame in use iff it publishes under a key in
  use or withdraws a channel a second time (`Ivc.EarlyFreeIff`); a run never does so iff none of its steps is
  one of those two (`Ivc.NeverFreesUsedIff`). After one of them the table has lost a user, and a later step
  that is neither can free a frame in use (`Ivc.OrderlyFreesUsed`).
* A hypercall that reports failure has changed the table iff it failed late (`IvcTable.FailureUnchangedIff`).
  A call leaves a freed frame mapped in a guest iff it publishes and cannot deliver its answer, publishes under
  a key in use, withdraws a second time, or is the last user's leaving and fails to unmap
  (`IvcMaps.DanglesIff`). The guests' mappings stay those that the table knows iff no call does that,
  fails to unmap what it gave up, fails to map a new subscription, or maps a repeated one
  (`IvcMaps.AlwaysAgreeIff`). A call reports success iff table, mapping and answer are all as asked
  (`IvcMaps.SuccessIff`).
* Validation passes iff every required option is stored under its own name by some argument
  (`CommandParser.RequiredGivenIff`); a long form that differs from the name does not count.
* For every file and all patches, stripping a devspace section undoes applying it iff what the file held
  besides its old section has no begin marker and no patch writes an end marker
  (`DevspaceApply.StripUndoesApplyIff`). Under the same condition on the first patches, and only then, applying
  twice is applying the second time alone (`DevspaceApply.ReapplyIff`).
* A source normalized twice is the source normalized once iff no slashes hid a second ".git"
  (`DevspaceSources.NormalizedIsStableIff`).
* A periodic deadline is at most a period away iff the stored one was (`Timer.DeadlineNearIff`). The count of an
  interrupt fits 32 bits iff the stored deadline is at most 2^32 - 1 ahead of the clock (`Timer.CountFitsIff`),
  and so for whole runs (`Timer.CountsFitIff`). That holds from boot on if no interrupt comes early
  (`Timer.CountFitsFromBoot`); with all interrupts at time 0, it fails from the 430th on
  (`Timer.BootRunFailsIff`).

Where two places of the source disagree, the code that acts is followed. `Partition::size` takes the end of a
window as inclusive, while the fallback in `partition.rs` passes a disk's sector count as that end.
`configs/defconfig.toml` has 1000 ticks per second, `modules/axconfig/src/lib.rs` has 100; the timer uses
the latter, as `update_timer` does.

## Modelling decisions

* A node listing has levels from 1 (the root) and node data: name, properties, and the first address of
  `reg` if it has one. `ValidTree` asks for what section 2.2 of the Devicetree Specification asks of names,
  as far as paths are concerned: not empty, no slash, distinct among siblings.
* `None` as a written stream stands for the panic of a closing assertion.
* Strings hold ASCII, so that a byte count is a character count. What depends on decoding (UTF-8 validity of
  a line, being blank) is a parameter, `Decoding`, with nothing assumed about it.
* Reading a 32-bit value from a property of fewer than four bytes panics; `PhandleTable` has `None` for it.
* Iteration orders of sets and maps are left open.
* A block device is a byte array and a fixed set of sectors on which every transfer fails.
* Frame numbers, guest addresses and the outcomes of memory accesses in a hypercall are parameters (`Env`);
  the allocators are trusted not to hand out a frame that is in use or a guest address that is mapped.
* Every lemma carries `{:induction false}`: all inductions are written out, none is left to the verifier.
* Times are natural numbers given to the timer; the clock is read a second time, not earlier.

## Model

| member | source | states |
|---|---|---|
| `DeviceTree.SelectIsPruneIffClosed` | kernel/src/vmm/fdt/create.rs:43-90 | filtering the flat listing of a tree lists the pruned tree iff the kept set contains all ancestors of what it contains |
| `DeviceTree.SelectIsPrune` | kernel/src/vmm/fdt/create.rs:43-90 | for an ancestor-closed set, the filtered listing is the listing of the pruned tree, levels included |
| `FdtStream.HandleNodeLevelChange` | kernel/src/vmm/fdt/create.rs:181-194 | the loop closes as many nodes as the level drop and the stack allow, and leaves a prefix of the stack |
| `FdtStream.BeginNode` | kernel/src/vmm/fdt/create.rs:46-90 | a node is opened under its written name, followed by all its properties in order |
| `FdtStream.CloseAll` | kernel/src/vmm/fdt/create.rs:93-97 | everything open is closed; the assertion holds iff the stack is as high as the last level |
| `FdtStream.EmitForest` | kernel/src/vmm/fdt/create.rs:43-90 | from any balanced state, walking a forest's listing writes that forest and nothing else, up to the nodes still open |
| `FdtStream.EmitTree` | kernel/src/vmm/fdt/create.rs:43-97 | walking a tree's listing writes exactly that tree: properties before children, every begin matched, assertion satisfied |
| `FdtStream.FinishIffNoJump` | kernel/src/vmm/fdt/create.rs:93-97 | for any nodes below a root, the closing assertion holds iff no node is more than one level below the one before |
| `FdtStream.DifferentCount` | kernel/src/vmm/fdt/create.rs:43-97 | a stream of another number of nodes is never the stream of the tree |
| `FdtStream.EmitSelectedIffClosed` | kernel/src/vmm/fdt/create.rs:43-97 | writing only the kept nodes gives the pruned tree iff kept nodes have kept ancestors |
| `Listings.BuildLists` | kernel/src/vmm/fdt/create.rs:43-97 | a listing without jumps is the listing of the forest built from it |
| `Listings.BuildIsUnique` | kernel/src/vmm/fdt/create.rs:43-97 | and of no other: building undoes listing |
| `Listings.StreamOfListing` | kernel/src/vmm/fdt/create.rs:43-97 | for any nodes below a root, taken from whatever tree: a panic if a level is jumped over, else the stream of the one tree they list |
| `Listings.AncestorByLevels` | kernel/src/vmm/fdt/create.rs:181-194 | in a listing a node lies above another iff all nodes up to the other are at deeper levels |
| `Listings.WrittenParent` | kernel/src/vmm/fdt/create.rs:181-194 | in the tree written, a node's parent is the last node before it one level above, whoever its parent was |
| `NodePaths.BuildNodePath` | kernel/src/vmm/fdt/device.rs:181-206 | the loop over levels computes the path stack's string, also for an index past the end |
| `NodePaths.PathStackForest` | kernel/src/vmm/fdt/device.rs:184-198 | after the i-th node of a forest, from any stack over its parent, the stack is that node's path |
| `NodePaths.PathStackTree` | kernel/src/vmm/fdt/device.rs:184-198 | the stack rebuilt from levels alone is the root-to-node path of the tree |
| `NodePaths.BuiltPathIsNodePath` | kernel/src/vmm/fdt/device.rs:181-206 | the path string built from a tree's listing is the tree's own path of that node |
| `NodePaths.TreeLevels` | kernel/src/vmm/fdt/device.rs:184-198 | a node's level is one more than the length of its path |
| `NodePaths.AncestorIsPrefix` | kernel/src/vmm/fdt/create.rs:151-178 | with valid names, being an ancestor is being a strict prefix as a path, and paths are distinct |
| `NodePaths.PathStringInjective` | kernel/src/vmm/fdt/device.rs:200-206 | different paths have different strings |
| `NodePaths.ContinuesIffPrefix` | kernel/src/vmm/fdt/create.rs:197-209 | the string test on rendered paths is the strict prefix order on names |
| `NodePaths.ContinuesIffAncestor` | kernel/src/vmm/fdt/create.rs:151-209 | the string test between two nodes' paths decides ancestry in the tree |
| `GuestFdt.VisitNode` | kernel/src/vmm/fdt/create.rs:43-90 | one turn of the loop: a node that the six-way classification keeps is opened at its level, any other changes nothing |
| `GuestFdt.CrateGuestFdt` | kernel/src/vmm/fdt/create.rs:25-100 | for any listing: the stream is that of the nodes selected by the six-way classification, or a panic |
| `GuestFdt.LevelImplied` | kernel/src/vmm/fdt/create.rs:151-178 | the slash-counting level test adds nothing to the component-wise prefix test |
| `GuestFdt.SameSideOfCpus` | kernel/src/vmm/fdt/create.rs:119-146 | a node and every node above it below the root are on the same side of the `/cpus` test |
| `GuestFdt.PathTestsClosed` | kernel/src/vmm/fdt/create.rs:119-209 | whatever selects a node by its path selects every node above it |
| `GuestFdt.BlockedIsSkipped` | kernel/src/vmm/fdt/create.rs:119-146 | memory nodes and unwanted cpu nodes are never kept |
| `GuestFdt.SelectedAncestor` | kernel/src/vmm/fdt/create.rs:119-243 | an ancestor of a kept node is kept, unless it is a memory node or an unwanted cpu node |
| `GuestFdt.KeptClosedIff` | kernel/src/vmm/fdt/create.rs:119-243 | the kept set is ancestor-closed iff nothing kept lies below such a node |
| `GuestFdt.GuestTreeIff` | kernel/src/vmm/fdt/create.rs:25-100 | end to end: the guest tree is the host tree pruned to the kept nodes iff nothing kept lies below such a node |
| `GuestFdt.DeviceTests` | kernel/src/vmm/fdt/create.rs:119-209 | the three path tests against a device are equality, above and below in the tree |
| `GuestFdt.SelectedIff` | kernel/src/vmm/fdt/create.rs:119-209 | outside memory and cpu nodes, kept are exactly the devices and everything above and below them |
| `GuestFdt.KeptIff` | kernel/src/vmm/fdt/create.rs:119-243 | for devices that are nodes: kept iff not blocked, and under `/cpus` or near a device |
| `GuestFdt.QuietIff` | kernel/src/vmm/fdt/create.rs:25-100 | the condition for the pruned tree, on tree, devices and cpus alone: what lies below a blocked node is blocked, or outside `/cpus` and near no device |
| `GuestFdt.GuestStream` | kernel/src/vmm/fdt/create.rs:25-100 | in every case: a panic if a level is jumped over, else the one tree that the kept nodes list |
| `Entries.TreeIsRead` | kernel/src/vmm/fdt/create.rs:43-97 | a reader of a tree's stream finds its nodes by their paths, with their properties, in order |
| `Entries.EntriesPrune` | kernel/src/vmm/fdt/create.rs:43-97 | pruning by a closed mask leaves every kept node under its own path |
| `Entries.SelectionIsReadIff` | kernel/src/vmm/fdt/create.rs:43-97 | a reader finds the kept nodes, each under its own path, iff all above them are kept |
| `GuestEntries.CpuPathIff` | kernel/src/vmm/fdt/create.rs:215-216 | a path string starts with "/cpus/cpu@" iff its first name is "cpus" and its second starts with "cpu@" |
| `GuestEntries.GuestKeepsIff` | kernel/src/vmm/fdt/create.rs:119-243 | a node is kept iff it is not named like memory, is under "/cpus" or near a device path, and under a cpu has a wanted address |
| `GuestEntries.GuestIsReadIff` | kernel/src/vmm/fdt/create.rs:25-100 | end to end: a reader of the stream finds the root and exactly those nodes, under their host paths, with their properties and in order, iff whatever lies above them is among them |
| `CutOff.BarePanics` | kernel/src/vmm/fdt/create.rs:93-97 | a host tree and a device on which the condition fails and the source panics |
| `CutOff.BesideIsMisplaced` | kernel/src/vmm/fdt/create.rs:119-194 | a host tree and two devices for which a device is written below another one |
| `CpuNodes.UpdateCpuNode` | kernel/src/vmm/fdt/create.rs:394-469 | for any two listings: the stream is the guest's nodes outside `/cpus` and then the host's wanted ones under their own names, on one stack, or a panic |
| `CpuNodes.HostEmitIsEmit` | kernel/src/vmm/fdt/create.rs:436-459 | host nodes not named `/` are written like any others |
| `CpuNodes.NonCpuClosed` | kernel/src/vmm/fdt/create.rs:408-433 | dropping all `/cpus` paths from the guest never separates a node from its parent |
| `CpuNodes.CpuClosedIff` | kernel/src/vmm/fdt/create.rs:436-459 | the wanted host nodes are ancestor-closed iff none lies below an unwanted cpu node |
| `CpuNodes.TwoForests` | kernel/src/vmm/fdt/create.rs:394-469 | two selections written on one stack come out as siblings of one tree iff the second is closed too |
| `CpuNodes.HostCpusIff` | kernel/src/vmm/fdt/create.rs:394-469 | end to end: guest tree without its cpus, followed by the host's wanted cpus, iff no wanted node is below an unwanted cpu |
| `CpuNodes.CpuStream` | kernel/src/vmm/fdt/create.rs:394-469 | in every case: a panic if a level is jumped over, else the one tree that the nodes written list |
| `CutOffUpdates.OneCpuPanics` | kernel/src/vmm/fdt/create.rs:436-469 | a host tree with a wanted node below an unwanted cpu on which the source panics |
| `CutOffUpdates.TwoCpusMisplaces` | kernel/src/vmm/fdt/create.rs:436-469 | a host tree whose wanted node below an unwanted cpu is written below another cpu |
| `HostEntries.HostIsReadIff` | kernel/src/vmm/fdt/create.rs:394-469 | end to end: a reader finds the guest's nodes outside "/cpus" and then the host's under it but for cpus without a wanted address, under their own paths, iff whatever lies above a host node taken is taken |
| `Cells.CellOrder` | kernel/src/vmm/fdt/device.rs:317-320 | cells are ordered as their bytes, the first byte counting most |
| `Cells.CellsRoundTrip` | kernel/src/vmm/fdt/create.rs:257-259 | big-endian cells decode to what was encoded |
| `MemoryNode.AddMemoryNode` | kernel/src/vmm/fdt/create.rs:246-261 | the loop writes the `reg` value of all regions and the device type |
| `MemoryNode.RegReadsBack` | kernel/src/vmm/fdt/create.rs:246-261 | the bytes of `reg` decode to the regions, 64-bit addresses and sizes, in order |
| `MemoryNode.CopyProps` | kernel/src/vmm/fdt/create.rs:292-327 | the property loops write what is carried over of `chosen`, and all properties of any other node |
| `MemoryNode.CloseAllWithMemory` | kernel/src/vmm/fdt/create.rs:331-345 | the closing loop writes the memory node just before the root is closed, if anything below the root is open |
| `MemoryNode.UpdateFdt` | kernel/src/vmm/fdt/create.rs:273-345 | for any listing: the rewritten nodes that are not memory nodes, closed with the memory node, or a panic |
| `MemoryNode.FinishTreeWith` | kernel/src/vmm/fdt/create.rs:331-345 | over a tree's listing the new node is the root's last child; a bare root gets none |
| `MemoryNode.SelectedWithMemoryIff` | kernel/src/vmm/fdt/create.rs:273-345 | a selection closed this way is the pruned tree with one more child iff it is ancestor-closed |
| `MemoryNode.UpdatedTreeIff` | kernel/src/vmm/fdt/create.rs:263-345 | end to end: the tree without memory nodes and with one new one, iff only memory nodes lie below memory nodes |
| `MemoryNode.StreamWithMemory` | kernel/src/vmm/fdt/create.rs:273-345 | in every case: a panic if a level is jumped over, else the one tree that the kept nodes list, with the memory node as the root's last child |
| `CutOffUpdates.BareUpdatePanics` | kernel/src/vmm/fdt/create.rs:263-345 | a tree with a node below a memory node on which the source panics, whatever the regions |
| `CutOffUpdates.BesideUpdateMisplaces` | kernel/src/vmm/fdt/create.rs:263-345 | a tree whose node below the memory node is written below another node, whatever the regions |
| `UpdatedEntries.ChosenIsCarried` | kernel/src/vmm/fdt/create.rs:292-320 | the chosen node keeps all but its initrd properties, names, values and order, and its boot arguments decode to the rewritten text |
| `UpdatedEntries.UpdatedIsReadIff` | kernel/src/vmm/fdt/create.rs:263-345 | end to end: a reader finds the root, every node not named like memory under its own path with its properties, and a last node whose `reg` decodes to the regions, iff nothing but memory nodes lies below memory nodes |
| `BootArgs.ReplaceRoAt` | kernel/src/vmm/fdt/create.rs:300-313 | replacing turns the "o" of a " ro " into a "w" and leaves every other byte alone |
| `BootArgs.SurvivorShares` | kernel/src/vmm/fdt/create.rs:300-313 | a surviving " ro " shared its first blank with an occurrence before it |
| `BootArgs.ReadOnlyGoneIff` | kernel/src/vmm/fdt/create.rs:300-313 | a " ro " survives iff two occurrences share a blank |
| `PhandleTable.ScanNode` | kernel/src/vmm/fdt/device.rs:254-279 | the loop over a node's properties computes its handle and cell counts, or the panic |
| `PhandleTable.ScanFailsIff` | kernel/src/vmm/fdt/device.rs:256-279 | it panics iff a property it reads has fewer than four bytes |
| `PhandleTable.LastHandleCounts` | kernel/src/vmm/fdt/device.rs:258-260 | of several properties named "phandle" or "linux,phandle" the last one counts |
| `PhandleTable.BuildPhandleMap` | kernel/src/vmm/fdt/device.rs:246-288 | the loop over a listing computes the table of its handles, or the panic |
| `PhandleTable.EntryNode` | kernel/src/vmm/fdt/device.rs:246-288 | every entry is that of the last node with the handle, under that node's path |
| `PhandleTable.LastNodeCounts` | kernel/src/vmm/fdt/device.rs:281-285 | the last node with a handle is in the table, with its path and its own cell counts |
| `PhandleTable.LastCountCounts` | kernel/src/vmm/fdt/device.rs:261-276 | the last property named like a count is that count |
| `PhandleTable.NoCount` | kernel/src/vmm/fdt/device.rs:261-276 | a node has a count only by a property of its name |
| `PhandleTable.NoHandle` | kernel/src/vmm/fdt/device.rs:258-260 | a node has a handle only by a property of one of the two names |
| `Phandles.ParsePhandleProperty` | kernel/src/vmm/fdt/device.rs:295-359 | the index loop computes the recursive parse, including its early stops on truncated data |
| `Phandles.ParseAt` | kernel/src/vmm/fdt/device.rs:322-356 | at each cell: an unknown handle is skipped, a known one takes the cells its target asks for, or ends the parse |
| `Phandles.ParsePieces` | kernel/src/vmm/fdt/device.rs:295-359 | of any array made of proper pieces the parse finds exactly the references, in order |
| `Phandles.PiecesOf` | kernel/src/vmm/fdt/device.rs:295-359 | every cell array is made of proper pieces without gaps or overlaps |
| `Phandles.ParsedVerbatim` | kernel/src/vmm/fdt/device.rs:295-359 | on arbitrary data the references are verbatim slices of a gapless decomposition |
| `Phandles.RefsRoundTrip` | kernel/src/vmm/fdt/device.rs:295-359 | well-formed references survive encoding to bytes and parsing |
| `CellCounts.CountOfKind` | kernel/src/vmm/fdt/device.rs:362-381 | a property that names targets of a kind, in the plural or in one of four other forms, goes by the count of that kind |
| `CellCounts.KindOf` | kernel/src/vmm/fdt/device.rs:362-381 | and every property that goes by a count names its kind |
| `CellCounts.CollectedIff` | kernel/src/vmm/fdt/device.rs:261-276 | the counts collected are those of the kinds, and three that nothing goes by |
| `CellCounts.FoundTakesOwn` | kernel/src/vmm/fdt/device.rs:295-359 | on any data, each reference found takes as many specifiers as its own target asks for under the property's kind |
| `CellCounts.OwnCountsRoundTrip` | kernel/src/vmm/fdt/device.rs:295-384 | a list encoded with its targets' own counts is what parsing gives back |
| `CellCounts.UncountedHandles` | kernel/src/vmm/fdt/device.rs:295-384 | in a property of no counted kind every cell that is a handle is a reference |
| `CellCounts.IommusIsUncounted` | kernel/src/vmm/fdt/device.rs:261-276 | a count is collected for `iommus`, which is followed, and never asked for |
| `CellCounts.CountedIsFollowedIff` | kernel/src/vmm/fdt/device.rs:420-456 | of the properties that go by a count, all are followed but three |
| `CellCounts.FollowedIff` | kernel/src/vmm/fdt/device.rs:420-456 | the properties followed are those of plain handles, those of counted references but three, and names with "cells" in them |
| `CellCounts.HandlesAreDependencies` | kernel/src/vmm/fdt/device.rs:389-413 | a property of plain handles gives exactly the nodes its cells are handles of |
| `CellCounts.RefsAreDependencies` | kernel/src/vmm/fdt/device.rs:389-413 | a property of references with specifiers gives exactly the nodes the references are to |
| `Phandles.ReferredPaths` | kernel/src/vmm/fdt/device.rs:389-413 | exactly the paths of the targets of a property's references |
| `Phandles.NodeDependencies` | kernel/src/vmm/fdt/device.rs:468-477 | exactly the targets of a node's phandle properties |
| `Phandles.FindDeviceDependencies` | kernel/src/vmm/fdt/device.rs:458-481 | exactly the targets of all nodes cached under the device's path |
| `Reachability.ReachableIsLeast` | kernel/src/vmm/fdt/device.rs:61-98 | what is reachable over chains of dependencies is the least closed set with the start in it |
| `Passthrough.BuildNodeCache` | kernel/src/vmm/fdt/device.rs:210-241 | every node is cached under its rebuilt path, duplicates in order |
| `Passthrough.CacheOfTree` | kernel/src/vmm/fdt/device.rs:210-241 | for a tree with valid names the keys are exactly the tree's paths, each with its own node alone |
| `Passthrough.GetDescendants` | kernel/src/vmm/fdt/device.rs:485-508 | exactly the cached paths below the given one |
| `Passthrough.BelowIffAncestor` | kernel/src/vmm/fdt/device.rs:485-508 | on a tree's paths, "below" by string prefix is being a descendant |
| `Passthrough.WithDescendants` | kernel/src/vmm/fdt/device.rs:33-54 | the listed devices and everything below them, each new one once |
| `Passthrough.QueueStep` | kernel/src/vmm/fdt/device.rs:71-98 | one turn of the work queue keeps: all configured is reachable, and dependencies of processed devices are configured |
| `Passthrough.FollowDependencies` | kernel/src/vmm/fdt/device.rs:61-98 | the queue ends, and what is configured is exactly what is reachable, whatever the order |
| `Passthrough.Retain` | kernel/src/vmm/fdt/device.rs:143-162 | exactly the names not to be dropped, without new duplicates |
| `Passthrough.FindAllPassthroughDevices` | kernel/src/vmm/fdt/device.rs:12-177 | exactly the reachable devices without the excluded ones, what lies below those, and the root; no duplicates if there were none |
| `Passthrough.DependenciesReachGuest` | kernel/src/vmm/fdt/device.rs:12-177 | a dependency of a required device is in the guest tree with every node above it, unless excluded or cut off by a guard |
| `Passthrough.FoundArePaths` | kernel/src/vmm/fdt/device.rs:12-177 | with the tree's own phandle table and configured node paths, everything found is the path of a node |
| `Passthrough.SearchedGuestIff` | kernel/src/vmm/fdt/create.rs:25-100 | the whole chain from configured devices over handles to the stream: the host tree pruned to what is kept iff nothing kept is cut off, as tree, devices and cpus decide |
| `BlockSpec.StepIsPrivate` | modules/axfs/src/dev.rs:110-183 | a step through a window is the same step on a private array, and changes nothing outside the window |
| `BlockSpec.StepElsewhere` | modules/axfs/src/dev.rs:110-183 | a step through one window leaves a disjoint window's bytes alone |
| `BlockSpec.InterleavingIsPrivate` | modules/axfs/src/dev.rs:110-183 | under every interleaving each of two disjoint windows sees what it would see alone, results and final bytes |
| `BlockSpec.InterleavingStaysInside` | modules/axfs/src/dev.rs:110-183 | no interleaving changes a byte outside both windows |
| `BlockStack.Disk.constructor` | modules/axfs/src/dev.rs:17-24 | a new cursor stands at 0 |
| `BlockStack.Disk.SetPosition` | modules/axfs/src/dev.rs:38-41 | sector and offset recombine to the given position |
| `BlockStack.Disk.ReadOne` | modules/axfs/src/dev.rs:44-70 | at most the rest of a sector is copied, position and buffer change together, and a bad sector changes nothing |
| `BlockStack.Disk.WriteOne` | modules/axfs/src/dev.rs:73-99 | at most the rest of a sector is replaced, partial sectors keep their other bytes, a bad sector changes nothing |
| `BlockStack.Partition.constructor` | modules/axfs/src/dev.rs:112-119 | a window of end - start + 1 sectors at 0, if the end is not before the start |
| `BlockStack.Partition.SetPosition` | modules/axfs/src/dev.rs:132-134 | the position is clamped to the window |
| `BlockStack.Partition.ReadOne` | modules/axfs/src/dev.rs:137-158 | carries out the specification's read step, wherever the disk's cursor was before |
| `BlockStack.Partition.WriteOne` | modules/axfs/src/dev.rs:161-182 | carries out the specification's write step, wherever the disk's cursor was before |
| `BlockStack.RunOp` | modules/axfs/src/dev.rs:132-182 | each operation of a window carries out its step, result included |
| `BlockStack.RunBoth` | modules/axfs/src/dev.rs:110-183 | two windows over one driver carry out every interleaving of the specification, results included |
| `BlockAdapters.ReadExact` | modules/axfs/src/partition.rs:323-332 | succeeds iff all sectors touched are good, and then the buffer is the bytes from the cursor on |
| `BlockAdapters.FatRead` | modules/axfs/src/fs/fatfs.rs:34-50 | all that the window and the buffer allow, or a stop at the first bad sector with what came before in place |
| `BlockAdapters.FatWrite` | modules/axfs/src/fs/fatfs.rs:52-66 | the same for writing |
| `BlockAdapters.FatSeek` | modules/axfs/src/fs/fatfs.rs:73-88 | reports the position asked for; the cursor is there iff it lies in the window |
| `Ext4Blocks.Ext4Write` | modules/axfs/src/fs/ext4fs.rs:553-567 | for every call that returns: it succeeds iff window and buffer have room for the blocks and their sectors are good, and then exactly bytes 4096 * id to 4096 * (id + count) of the window are the buffer's and all else is as it was; otherwise it ends as the iterated loop ends, on a bad sector with what came before in place |
| `Ext4Blocks.Ext4Read` | modules/axfs/src/fs/ext4fs.rs:569-583 | the same for reading: the blocks from their place in the window, and the buffer keeps its rest |
| `Ext4Blocks.WindowAfterWrite` | modules/axfs/src/fs/ext4fs.rs:553-567 | the window's bytes after a write are the old ones with the blocks spliced in at 4096 * id |
| `Ext4Blocks.WindowRead` | modules/axfs/src/fs/ext4fs.rs:569-583 | a read gives that slice of the window's bytes |
| `Ext4Blocks.OtherBlocksStay` | modules/axfs/src/fs/ext4fs.rs:553-567 | each block written is the buffer's, and every other block is as it was |
| `Ext4Blocks.Ext4WriteThenRead` | modules/axfs/src/fs/ext4fs.rs:553-583 | both calls succeed iff there is room and every sector is good, and then the blocks are read back as written and the rest of the buffer is kept |
| `BlockAdapters.LoopEndsIff` | modules/axfs/src/fs/ext4fs.rs:553-583 | a call comes to an end, with success or an error, iff there is room for all of it, or a bad sector before the end of what there is, or a bad sector under the cursor when the buffer is used up inside the window |
| `BlockAdapters.ThreeWaysToSeek` | modules/axfs/src/fs/fatfs.rs:73-88 | every place in the window is reached from the start, from the cursor and from the end |
| `BlockAdapters.LoopTracks` | modules/axfs/src/fs/ext4fs.rs:553-583 | after any number of iterations exactly the bytes counted have been moved, and a failed loop stands on a bad sector |
| `BlockAdapters.SucceedsIff` | modules/axfs/src/fs/ext4fs.rs:553-583 | a call that has ended succeeded iff there was room and every sector of the work is good |
| `BlockAdapters.WholeDiskFailsIff` | modules/axfs/src/partition.rs:103-115 | on the window for an unpartitioned disk a transfer fails iff it starts on a bad sector or on the one sector past the disk |
| `BlockAdapters.WholeDiskTransferIff` | modules/axfs/src/partition.rs:103-115 | without bad sectors, a FAT transfer there succeeds iff it does not reach past the disk, or starts at the window's end |
| `Ivc.InvStep` | kernel/src/vmm/ivc.rs:17-151 | every step, error paths included, keeps: each channel owns a live frame of its own, nothing else is live, sizes fit |
| `Ivc.RunKeepsInv` | kernel/src/vmm/ivc.rs:17-151 | after every run the live frames are exactly those of the channels held |
| `Ivc.StepConserves` | kernel/src/vmm/ivc.rs:215-224 | the destructors of a step give back live frames only, each at most once |
| `Ivc.RunConserves` | kernel/src/vmm/ivc.rs:17-255 | over every run a frame is given back exactly as often as it was taken, or once less while it is live: no leak and no double free |
| `Ivc.InvReplace` | kernel/src/vmm/ivc.rs:17-33 | an insertion under a key in use frees the old channel's frame, which was live, and no other |
| `Ivc.InitialInv` | kernel/src/vmm/ivc.rs:12-15 | the empty table satisfies the invariant |
| `Ivc.LastUserFrees` | kernel/src/vmm/ivc.rs:40-151 | an orderly step frees a frame iff it takes away the frame's last user |
| `Ivc.OrderlyRunLiveIffUsed` | kernel/src/vmm/ivc.rs:17-151 | after every orderly run a frame is live iff its publisher or a subscriber still uses it |
| `Ivc.EarlyFreeIff` | kernel/src/vmm/ivc.rs:17-71 | as long as the table knows all users, the steps that free a frame still in use are exactly publishing under a used key and withdrawing twice |
| `Ivc.NeverFreesUsedIff` | kernel/src/vmm/ivc.rs:17-151 | a run, from wherever the table knows all users, never frees a frame in use iff none of its steps is one of those two |
| `Ivc.OrderlyFreesUsed` | kernel/src/vmm/ivc.rs:17-71 | a run from the empty table after which a publisher's only withdrawal frees a frame that a subscriber uses |
| `IvcTable.FramePool.Dealloc` | kernel/src/vmm/ivc.rs:215-224 | only a live frame is ever freed |
| `IvcTable.ChannelTable.constructor` | kernel/src/vmm/ivc.rs:12-15 | an empty table with no frame taken satisfies the invariant |
| `IvcTable.ChannelTable.AllocChannel` | kernel/src/vmm/ivc.rs:227-255 | a channel with its own frame and clamped size, or nothing at all |
| `IvcTable.ChannelTable.DropPending` | kernel/src/vmm/ivc.rs:215-224 | a channel dropped before insertion gives back exactly its own frame |
| `IvcTable.ChannelTable.InsertChannel` | kernel/src/vmm/ivc.rs:17-33 | the insertion step, its reply, and the invariant |
| `IvcTable.ChannelTable.UnpublishChannel` | kernel/src/vmm/ivc.rs:40-71 | the withdrawal step with its four outcomes, and the invariant |
| `IvcTable.ChannelTable.GetChannelSize` | kernel/src/vmm/ivc.rs:73-86 | the size, at most 4096, that a subscription made now is mapped with, on a live frame; none iff such a subscription fails |
| `IvcTable.ChannelTable.SubscribeTo` | kernel/src/vmm/ivc.rs:90-110 | the subscription step, its reply, and the invariant |
| `IvcTable.ChannelTable.UnsubscribeFrom` | kernel/src/vmm/ivc.rs:115-151 | the unsubscription step with its outcomes, and the invariant |
| `IvcTable.ChannelTable.Execute` | kernel/src/vmm/hvc.rs:30-147 | an uninterrupted hypercall, on every failure path, is a run of table steps and keeps the invariant |
| `IvcTable.FailureUnchangedIff` | kernel/src/vmm/hvc.rs:30-147 | a failed hypercall left the table as it was iff it did not fail after its table step |
| `IvcCalls.MoveKeeps` | kernel/src/vmm/hvc.rs:30-147 | with any number of calls in progress, each access of one of them to the table keeps the invariant, and channels outside the table are those of publishing calls halfway |
| `IvcCalls.ScheduleIsRun` | kernel/src/vmm/hvc.rs:30-147 | however calls interleave, the table goes through a run of its steps |
| `IvcCalls.QuietOwnsTable` | kernel/src/vmm/hvc.rs:30-147 | when all calls have returned, in whatever order, every live frame belongs to a channel in the table |
| `IvcCalls.AloneIsExecute` | kernel/src/vmm/hvc.rs:30-147 | a call that nobody interrupts does what the sequential execution does, outcome included |
| `IvcReplies.RepliesNamePublication` | kernel/src/vmm/ivc.rs:17-110 | whatever other calls do in between, a withdrawal is answered with the address and size the channel was published with, and a subscription with its frame and size |
| `IvcReplies.EndNamesSubscription` | kernel/src/vmm/ivc.rs:90-151 | whatever other calls do in between, the end of a subscription is answered with the address it began at and the size answered then |
| `IvcMaps.SuccessIff` | kernel/src/vmm/hvc.rs:30-147 | a call reports success iff the table, the guest's mapping and the answer to the guest are all as asked |
| `IvcMaps.DanglesIff` | kernel/src/vmm/hvc.rs:30-147 | where the guests' mappings are those the table knows, the calls that leave a freed frame mapped are exactly four kinds, told by the table and the call's own outcomes |
| `IvcMaps.AgreesIff` | kernel/src/vmm/hvc.rs:30-147 | and the mappings are still those the table knows iff the call is none of these, unmapped what it gave up, and mapped a subscription iff it was new |
| `IvcMaps.AlwaysAgreeIff` | kernel/src/vmm/hvc.rs:30-147 | over every run of calls: mappings and table always agree iff every call is of that kind |
| `IvcMaps.TidyRunNeverDangles` | kernel/src/vmm/hvc.rs:30-147 | and then no frame is ever freed while it is mapped |
| `Timer.PeriodicTimer.UpdateTimer` | modules/axruntime/src/lib.rs:266-283 | one interrupt programs and stores the deadlines, and the count or the failed assertion that follows from them |
| `Timer.DeadlineNearIff` | modules/axruntime/src/lib.rs:274-283 | deadlines lie in the future and the stored one follows by a period; the new one is at most a period away iff the stored one was, and so if the interrupt was not early |
| `Timer.NoDriftIff` | modules/axruntime/src/lib.rs:274-283 | over any run from any state the stored deadline advances by exactly a period each iff every interrupt came before the stored deadline |
| `Timer.CountAlwaysFits` | platform/x86-qemu-q35/src/time.rs:112-124 | after any run without early interrupts the deadline is at most a period away and the 32-bit count assertion holds |
| `Timer.NoDriftFromBoot` | modules/axruntime/src/lib.rs:266-283 | from boot on, deadlines lie whole periods after the first interrupt iff no later one misses its period |
| `Timer.CountFitsFromBoot` | platform/x86-qemu-q35/src/time.rs:112-124 | from boot on, the first interrupt included, the count assertion holds if no interrupt comes early |
| `Timer.CountFitsIff` | platform/x86-qemu-q35/src/time.rs:112-124 | the count assertion of an interrupt holds iff the stored deadline is at most 2^32 - 1 ahead of the second reading of the clock |
| `Timer.CountsFitIff` | platform/x86-qemu-q35/src/time.rs:112-124 | a run passes all its assertions iff the stored deadline is never further ahead than that |
| `Timer.BootRunFailsIff` | platform/x86-qemu-q35/src/time.rs:112-124 | with all interrupts at time 0 after boot, the assertion fails iff there have been 430 or more |
| `Timer.CountIsTimeLeft` | platform/x86-qemu-q35/src/time.rs:112-124 | the count loaded is at least 1 and runs down at the deadline, or a tick from now if that has passed |
| `Timer.PeriodicFromBoot` | modules/axruntime/src/lib.rs:266-283 | a timer that runs down each count as loaded is never early and fires once a period, from boot on |
| `Timer.EarlyInterruptsRunAway` | modules/axruntime/src/lib.rs:274-283 | n early interrupts push the stored deadline n periods out, from any state |
| `History.CommandHistory.constructor` | kernel/src/shell/command/history.rs:11-17 | an empty history |
| `History.CommandHistory.AddCommand` | kernel/src/shell/command/history.rs:19-28 | adds unless blank or repeated, drops the oldest, resets the index; a history of size 0 panics on a command that is not blank |
| `History.CommandHistory.Previous` | kernel/src/shell/command/history.rs:30-38 | one step back, if there is one |
| `History.CommandHistory.Next` | kernel/src/shell/command/history.rs:40-51 | one step forward, or past the end |
| `History.AddKeepsRecent` | kernel/src/shell/command/history.rs:19-28 | the history is always the recent part of the command log without immediate repetitions |
| `History.SqueezedNoRepeat` | kernel/src/shell/command/history.rs:19-28 | no two neighbours of that log are equal |
| `History.UpThenDown` | kernel/src/shell/command/history.rs:30-51 | up and then down returns to the same place and shows what was there |
| `LineEditor.ShiftLeft` | kernel/src/shell/mod.rs:83-85 | the loop moves the text after the cursor one place left and nothing else |
| `LineEditor.ShiftRight` | kernel/src/shell/mod.rs:111-113 | the loop moves the text after the cursor one place right and nothing else |
| `LineEditor.Console.constructor` | kernel/src/shell/mod.rs:20-45 | an empty line and an empty history |
| `LineEditor.Console.SubmitLine` | kernel/src/shell/mod.rs:59-78 | a non-empty line is recorded and the buffer emptied; an empty one changes nothing |
| `LineEditor.Console.Backspace` | kernel/src/shell/mod.rs:79-100 | the character before the cursor goes, the text after it stays |
| `LineEditor.Console.InsertChar` | kernel/src/shell/mod.rs:107-126 | the character is put before the cursor, the text around it stays |
| `LineEditor.Console.Load` | kernel/src/shell/mod.rs:142-149 | the line becomes the recalled one, cut to the buffer, cursor at its end |
| `LineEditor.Console.Recall` | kernel/src/shell/mod.rs:139-192 | both arrows move in the history and replace the line, or clear it |
| `LineEditor.Console.MoveRight` | kernel/src/shell/mod.rs:193-201 | the cursor passes one character, the text stays |
| `LineEditor.Console.MoveLeft` | kernel/src/shell/mod.rs:202-210 | the same to the left |
| `LineEditor.Console.HandleKey` | kernel/src/shell/mod.rs:57-128 | the array code carries out the key on text before and after the cursor |
| `LineEditor.Console.HandleArrow` | kernel/src/shell/mod.rs:137-222 | the same for the last byte of an escape sequence |
| `LineEditor.Console.Feed` | kernel/src/shell/mod.rs:46-224 | one byte in any mode is one step of the specification |
| `LineEditor.Console.FeedAll` | kernel/src/shell/mod.rs:46-224 | any input is the specification's run; the array never overflows and is zero past the line |
| `LineEditor.RunKeeps` | kernel/src/shell/mod.rs:46-224 | for every input the line fits the buffer and the history is the last hundred commands entered, without immediate repetitions |
| `LineEditor.RecallIsComplete` | kernel/src/shell/mod.rs:139-192 | after every input an arrow, up or down, that finds a line shows it in full: the cut never applies |
| `Typing.EditsShow` | kernel/src/shell/mod.rs:46-224 | any typing, erasing, moving and entering does to the editor what it does to a plain text with a cursor position |
| `Typing.TypedIsEntered` | kernel/src/shell/mod.rs:57-128 | a line typed and entered is what is submitted |
| `Typing.UpsShow` | kernel/src/shell/command/history.rs:30-38 | the n-th step back from the end shows the n-th line from the end, further ones none |
| `Tokenizer.Tokenize` | kernel/src/shell/command/mod.rs:187-216 | the character loop computes the recursive scan |
| `Tokenizer.TokensOfLine` | kernel/src/shell/command/mod.rs:187-216 | a line of words in any mix of plain, escaped and quoted pieces splits into exactly their texts |
| `Tokenizer.WritableIff` | kernel/src/shell/command/mod.rs:187-216 | a token list comes from some input iff none of its tokens is empty |
| `CommandParser.FindCommand` | kernel/src/shell/command/mod.rs:218-240 | the longest command path at the start of the tokens, and the rest |
| `CommandParser.CommandIsUnique` | kernel/src/shell/command/mod.rs:218-240 | there is only one such split |
| `CommandParser.ShortToken` | kernel/src/shell/command/mod.rs:285-308 | the loop over a short token's characters computes the recursive parse, errors included |
| `CommandParser.LongToken` | kernel/src/shell/command/mod.rs:262-284 | both long forms, flags and options, errors included |
| `CommandParser.ParseArguments` | kernel/src/shell/command/mod.rs:243-317 | the index loop computes the recursive parse, errors included |
| `CommandParser.ParseWrittenAll` | kernel/src/shell/command/mod.rs:243-317 | accepted arguments, written as tokens, parse to what they mean, later values winning |
| `CommandParser.ParsesIffWritten` | kernel/src/shell/command/mod.rs:243-317 | tokens parse to a result iff they are accepted arguments with that meaning |
| `CommandParser.ValidateRequiredOptions` | kernel/src/shell/command/mod.rs:353-363 | nothing is missing, or the first required option without a value |
| `CommandParser.Parse` | kernel/src/shell/command/mod.rs:164-185 | succeeds with a command iff the tokens say that command; otherwise reports the error of the first stage that fails |
| `CommandParser.LineRoundTrip` | kernel/src/shell/command/mod.rs:164-317 | a command path and accepted arguments, quoted and spaced at will, parse back to themselves |
| `CommandParser.ExecuteCommand` | kernel/src/shell/command/mod.rs:367-383 | neither lookup can fail; a handler runs iff the input parses and its node has one |
| `CommandParser.OptionGivenIff` | kernel/src/shell/command/mod.rs:262-308 | an option has a value iff some argument stores one under its very name, by a long form or by its short form |
| `CommandParser.LastValueWins` | kernel/src/shell/command/mod.rs:262-308 | and then it has the last value so stored |
| `CommandParser.RequiredGivenIff` | kernel/src/shell/command/mod.rs:319-363 | for all accepted arguments, validation passes iff every required option is given in that sense |
| `CommandLaws.FlagByShortIs` | kernel/src/shell/command/mod.rs:346-351 | a short form means the first flag declared with it, or none |
| `CommandLaws.OptionByShortIs` | kernel/src/shell/command/mod.rs:339-344 | the same for options |
| `CommandLaws.FlagGivenIff` | kernel/src/shell/command/mod.rs:262-308 | a flag is there iff some argument gives it, by the long name typed or by a short form of it, and then it is true |
| `CommandLaws.OptionIs` | kernel/src/shell/command/mod.rs:262-308 | an option has a value iff the last argument that stores under its name stores that one |
| `CommandLaws.ParsesIffAmounts` | kernel/src/shell/command/mod.rs:243-337 | tokens parse to a result iff they are arguments that the command declares, written down, and the result holds just these options, flags and positional arguments |
| `CommandLaws.FailsIffFault` | kernel/src/shell/command/mod.rs:243-317 | tokens fail with an error iff after such arguments comes a token with an unknown name, or an option without its value, and the error names it |
| `Devspace.GroupedIsPathFor` | xtask/src/devspace.rs:380-410 | looking up a source and a crate in the groups gives the last path named for them |
| `Devspace.GroupedSorted` | xtask/src/devspace.rs:380-410 | sources, and the crates of each, stand in strictly increasing order |
| `Devspace.GroupedExactly` | xtask/src/devspace.rs:380-410 | the section has an entry for a crate of a source iff that is the last path named for it: no stale or doubled entries |
| `Devspace.LessIff` | xtask/src/devspace.rs:381-387 | keys are ordered by their first difference, a proper prefix first |
| `Devspace.RenderSection` | xtask/src/devspace.rs:380-410 | the rendering loops write the framed section of the grouped patches |
| `Devspace.FirstEnd` | xtask/src/devspace.rs:380-410 | the first end marker of a rendered section is the one that closes it iff its entries hold none |
| `DevspaceEntries.SectionFrame` | xtask/src/devspace.rs:389-410 | a section is its markers, written out, around its entries |
| `DevspaceEntries.SectionIsRead` | xtask/src/devspace.rs:380-410 | read line by line, a section gives back its patches, group by group |
| `DevspaceEntries.ReadIffGiven` | xtask/src/devspace.rs:380-410 | a path for a crate of a source is read from the section iff it is the last one given for it |
| `DevspaceApply.ApplyPatches` | xtask/src/devspace.rs:173-204 | old section removed, rest padded, new section appended; nothing written for no patches |
| `DevspaceApply.StripUndoesApply` | xtask/src/devspace.rs:206-221 | a file without a section comes back, up to blank lines at its end |
| `DevspaceApply.StripUndoesApplyIff` | xtask/src/devspace.rs:412-430 | for every file and all patches, stripping undoes applying iff what the file holds besides its first section has no begin marker and the patches write no end marker |
| `DevspaceApply.HashFreeIsEndFree` | xtask/src/devspace.rs:380-410 | patches without hash signs write no end marker |
| `DevspaceApply.ReapplyIff` | xtask/src/devspace.rs:173-204 | for every file and all patches, applying twice is applying the second time alone iff the same holds of the file and the first patches |
| `DevspaceApply.StrayBegin` | xtask/src/devspace.rs:412-430 | after a begin marker without an end, everything from it on is lost |
| `DevspaceApply.InnerStripped` | xtask/src/devspace.rs:412-430 | a further whole section in the file is stripped in place of the one applied |
| `DevspaceSources.NormalizesTo` | xtask/src/devspace.rs:356-368 | a git address is found again under slashes, any number of ".git", a query and a fragment |
| `DevspaceSources.RegistryIs` | xtask/src/devspace.rs:363-368 | the crates.io index has its own name; other sources that are not git's have none |
| `DevspaceSources.NormalizedIsSafe` | xtask/src/devspace.rs:356-368 | a normalized source has no fragment, query or final slash, and cannot break a section |
| `DevspaceSources.NormalizedIsStableIff` | xtask/src/devspace.rs:356-368 | normalizing again changes nothing iff the raw source, cut at its fragment and query and rid of its ".git", does not end in ".git" and slashes |

## Left out

- The binary encoding of flattened device trees, and the libraries that read and write it: the model starts at node lists and ends at the stream of begin, property and end.
- Guest memory mapping, load addresses (`calculate_dtb_load_addr`) and the copy of a finished tree into a guest.
- A missing list of physical cpu ids, which panics in `crate_guest_fdt` and `update_cpu_node`: the list is a parameter.
- CrateGuestFdt: properties are copied whole; the writer's own errors, which the source unwraps, are not modelled.
- GuestTreeIff: speaks of trees with valid names; for other listings the contract of CrateGuestFdt still holds.
- FindAllPassthroughDevices: the order of the names is not stated, because it depends on set order and nothing downstream uses it; that excluded devices stay out of the guest tree is not claimed either, since a listed ancestor brings them back.
- Overflow of 64-bit addresses and positions in the block stack; sizes of real disks are far below it.
- Errors that come and go: a sector fails always or never.
- Partition.constructor: accepts an end before the start as the source does, but says nothing of such a window, whose size underflows.
- Ext4Write: has a contract for the calls that return, and LoopEndsIff says exactly which those are; the others never hand anything back to their caller.
- ReadIffGiven: speaks of crate names without blanks and of sources and paths on one line, as cargo has them; the renderer escapes nothing.
- Ext4Read: the same.
- The same loops on a bare disk, `total_blocks`, GPT parsing and the file systems themselves.
- The time at which a channel's destructor runs within a step, and the header a channel's frame holds.
- DanglesIff: speaks of calls one after another and of single frames; what IvcMaps keeps of a guest's address space is which frame is mapped where. Calls that interleave are covered by IvcCalls for the table alone.
- Drawing on the terminal, built-in commands and the commands' handlers.
- File access, cargo metadata and git in devspace; paths are plain strings.
- The other platforms' timers, the virtual machine life cycle, vCPU scheduling and the configuration front ends.
