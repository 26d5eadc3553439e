# CHASM tree and its neighbours: a verified model

This project models the parts of the server whose correctness rests on invariants rather than on
wiring, and proves those invariants.

* **The CHASM tree.** An in-memory tree of components that has to agree with a flat map of stored
  nodes and with replicas in other clusters. The model covers structure synchronisation, deferred
  pointers, serialization, logical and physical tasks, closing a transaction, refreshing task status,
  applying mutations and snapshots, running expired pure tasks, and the visibility counter.
* **The path encoder** whose keys are used for range queries.
* **The shard-owner cache** of the history client, as interleaved locked sections.
* **Shard mapping, the poll balancer and the moving average.**

## Shape of the model

| file | module | part of the system |
|---|---|---|
| `Tasks.dfy` | `Wrappers`, `Versions`, `Tasks` | versioned transitions, the two task orders, the status merge |
| `TaskLists.dfy` | `TaskLists` | pruning, stamping, sorting and scanning of one component's lists; whole runs of one list |
| `Tree.dfy` | `Trees` | nodes, values, fields; find, update, place, delete |
| `Sync.dfy` | `StructureSync` | structure synchronisation |
| `Pointers.dfy` | `Pointers` | reading fields, resolving deferred pointers |
| `PathEncoder.dfy` | `PathEncoder` | encoding, decoding, key ranges |
| `Transaction.dfy` | `Transactions` | serialization and tasks at the end of a transaction |
| `Engine.dfy` | `Engine` | closing a transaction and refreshing tasks, on a state |
| `Persistence.dfy`, `Runs.dfy` | `Persistence`, `TransactionRuns` | agreement with the store, for one close and for runs with replication |
| `ChasmTree.dfy` | `ChasmTrees` | the class `ChasmTree`, where trees come from, and what its operations keep |
| `Replication.dfy`, `Convergence.dfy` | `Replication`, `Convergence` | mutations and snapshots; replicas catch up |
| `PureTimers.dfy`, `PureTaskRun.dfy` | `PureTimers`, `PureTaskRun` | the earliest timer; running expired pure tasks |
| `Ledgers.dfy` | `NodeLedgers` | the side-effect tasks of every node, over whole runs |
| `Examples.dfy` | `Examples` | inputs, worked through, on which the code does less than expected |
| `Visibility.dfy` | `VisibilityTasks` | one live visibility task |
| `CachingRedirector.dfy` | `CachingRedirector` | the shard-owner cache |
| `Arithmetic.dfy`, `ShardMapping.dfy`, `LoadBalancer.dfy`, `MovingAverage.dfy` | same names | arithmetic and counters |

The tree is a value, `Tree(item, kids)`. Loops that in Go range over a map choose their next element
freely, so what is proved holds for every iteration order. A walk that changes nodes in place runs
over the flattened tree and puts the nodes back (`Regrow`). A change set that shares a serialized
node with the tree holds `Live`; once the tree drops the node the entry becomes `Stale` and keeps
the serialized form it shared, also when replication gives the node another one. Nodes are stored
and noted under keys: the path and whether the last name is written as a collection item, which is
what the encoder makes a string of. Executors are arbitrary functions, and so are validators, which may
read the whole tree; the clock, random
choices and what other goroutines do are parameters.

## Where the code does less than it seems to promise

Each of these is a theorem, with the exact condition.

* A close writes exactly the new tree **if and only if** no stored key is lost without a report (by
  this or an earlier synchronisation of the transaction), no note of a node with refreshed task status
  has lost its node, and no noted replicated node vanishes again (`Persistence.PersistenceAgreement`; on
  the state alone, `Persistence.AgreementOnTheState`). The second clause has one corner: the note does no
  harm if the node now at that key gets the pure timer. Three inputs are worked through in full: a field
  overwritten over a node with a child (`Examples.OverwriteDisagrees`), the same with a synchronisation
  in the middle of the transaction (`Examples.MidTransactionSyncDisagrees`), and a refreshed node replaced
  by replication (`Examples.ReplacedRefreshDisagrees`). Along a run each close leaves exactly the tree in
  storage if and only if the tree is consistent before each (`TransactionRuns.EveryRunPersistsIff`).
* Whatever keys were lost, the nodes of the tree themselves are stored as they are **if and only if** no
  note of a refreshed node stands where the tree has another node (`Persistence.NodesAreStoredIff`, and
  along a run `TransactionRuns.EveryRunStoresTheTreeIff`).
* A path that comes back as another kind of child has another key, so its old key is orphaned
  (`Examples.RetypedPathIsOrphaned`).
* One synchronisation leaves no dirty structure **if and only if** it overlooks no dirty node. A dirty
  component below a child that is not in memory is overlooked, and keeps the transaction from closing
  (`StructureSync.SettledIff`, `Examples.HiddenDirtStopsTheClose`).
* The two parts of a mutation overlap at a key **if and only if** the key was reported as deleted, its
  node is not serialized anew, and a note names it all the same (`Persistence.MutationOverlapIff`). In
  active runs these are exactly the keys of refreshed nodes that are then deleted
  (`TransactionRuns.EveryCloseOverlapsIff`); in consistent trees, those of nodes that replication deleted
  and put back (`Persistence.ConsistentOverlapIff`). One input for each: `Examples.ClearedRefreshOverlaps`,
  `Examples.ReturnedNodeOverlaps`.
* A snapshot leaves exactly its own nodes **if and only if** it sends again everything at and below a
  path that changed its kind (`Convergence.SnapshotLandsIff`).
* The backward scan for side-effect tasks reaches every task **if and only if** created tasks come
  first (`TaskLists.ScanReachesAllIff`), and merging a replicated list keeps that shape **if and only
  if** no waiting task comes before a created one (`TaskLists.CarryKeepsShapeIff`).
* If a child arrives before its parent, the parent keeps the sender's task status; both orders agree
  **if and only if** the sender's status is empty (`Replication.ChildFirstKeepsForeignStatus`).
* Stopping at the first unexpired pure task misses nothing **if and only if** no task without a time
  comes before an expired one (`PureTaskRun.PrefixIsAllExpiredIff`).
* A pointer put into a map is never resolved and keeps every transaction from closing
  (`Engine.PointerInMapStopsTheClose`).
* The subtree range of a collection item finds only the item (`PathEncoder.ItemRangeFindsOnlyTheItem`).
* Poll counts are the tokens out all along a run **if and only if** no step of it cuts off a partition
  that has polls (`LoadBalancer.RunIsPreciseIff`; one run that does, `LoadBalancer.ResizingForgets`).

## Model

| member | source | states |
|---|---|---|
| Tasks.CmpOrder | temporal/chasm/tree.go:2499-2512 | both task orders are strict total orders: antisymmetric, transitive, and equal exactly on equal keys |
| Tasks.CarryOverTaskStatus | temporal/chasm/tree.go:2514-2554 | the two-pointer merge of sorted lists refines lookup by key: every incoming task gets the status and blob of the local task with its key, or no status; exactly the blobs of unmatched local tasks leave the cache |
| Tasks.UnmatchedBlobsMeaning | temporal/chasm/tree.go:2514-2554 | a blob leaves the cache exactly when it belongs to a local task without a counterpart |
| TaskLists.PruneKeepsOrder | temporal/chasm/tree.go:1692-1732 | removing invalid tasks leaves a sorted list sorted |
| TaskLists.HandleNewTasks | temporal/chasm/tree.go:1734-1806 | fails exactly on clashing attributes or a failing validator; otherwise both lists grow by the valid new tasks with consecutive offsets over both kinds, and the pure list is re-sorted only if it grew |
| TaskLists.SortPureSorts | temporal/chasm/tree.go:1800-1803 | sorting yields a strictly ordered list whenever keys are distinct |
| TaskLists.SortPure | temporal/chasm/tree.go:1800-1803 | sorting loses and invents no task |
| TaskLists.ScanSideEffects | temporal/chasm/tree.go:1606-1617 | the backward loop marks and hands out what the recursive scan says |
| TaskLists.ScanReachesAllIff | temporal/chasm/tree.go:1606-1617 | stopping at the first created task leaves every task created if and only if created tasks come first |
| TaskLists.ScanEmitsPending | temporal/chasm/tree.go:1606-1617 | on such a list the scan hands out the tasks without a physical task, each once, newest first |
| TaskLists.EmittedKeys | temporal/chasm/tree.go:1606-1617 | the scan hands out the key of every waiting task exactly once and no other key |
| TaskLists.CloseKeepsSound | temporal/chasm/tree.go:1692-1826 | a transaction keeps a list sorted, created-first and exactly logged |
| TaskLists.ReplicateKeepsSound | temporal/chasm/tree.go:2114-2164 | so does a replicated list that arrives in order |
| TaskLists.InOrderKeepsShape | temporal/chasm/tree.go:2514-2554 | merging a list that brings only newer tasks keeps created tasks first |
| TaskLists.EveryRunIsSound | temporal/chasm/tree.go:1606-1617 | over every run of transactions, refreshes and in-order replication no key is handed out twice between resets, a task is marked exactly when it was handed out, and after a transaction every surviving task has been handed out exactly once |
| TaskLists.CarryKeepsShapeIff | temporal/chasm/tree.go:2514-2554 | the merge keeps created tasks first if and only if every task created locally precedes every other one in the incoming list |
| Trees.TreeIsPrefixClosed | temporal/chasm/tree.go:2227-2248 | every prefix of a node's path is a node |
| Trees.FindSplit | temporal/chasm/tree.go:2235-2248 | finding along a joined path is finding twice |
| Trees.FlatRegrow | temporal/chasm/tree.go:1913-1932 | a walk that replaces nodes in place changes exactly those nodes and no path |
| Trees.SetPath | temporal/chasm/tree.go:629-648 | placing a serialized node makes the missing ancestors as empty nodes, resets nothing else, and changes no other path |
| Trees.DeletePath | temporal/chasm/tree.go:2250-2274 | deleting removes the node and everything below it and leaves every other path as it was |
| StructureSync.SyncPath | temporal/chasm/tree.go:718-818 | path by path, the recursive rebuild agrees with the fate read off the fields along the path: gone, replaced, kept, visited or regrouped; whatever else it holds is new |
| StructureSync.VisitedSubtree | temporal/chasm/tree.go:979-984 | where the walk visits a node it does to that subtree what it would do to it alone |
| StructureSync.BuiltPath | temporal/chasm/tree.go:940-984 | every node made for a fresh value is unserialized, dirty, stamped with this transaction and without tasks |
| StructureSync.KeyStays | temporal/chasm/path_encoder.go:61-69 | a node the walk leaves in place keeps its key |
| StructureSync.DeletionsAreReported | temporal/chasm/tree.go:988-999 | reported keys are gone, and a key that is gone is either reported or orphaned at or below an overwritten node, never both |
| StructureSync.OverwrittenNodeStays | temporal/chasm/tree.go:922-975 | an overwritten node's own path stays; only what lay below it can be orphaned |
| StructureSync.PhantomAbsent | temporal/chasm/tree.go:718-818 | a path reported for an empty map of a new value is not in the tree |
| StructureSync.SettledIff | temporal/chasm/tree.go:718-818 | after the walk no node is above NeedSerialize if and only if no dirty node was overlooked |
| StructureSync.SyncAligns | temporal/chasm/tree.go:718-818 | after a settling walk the children of every component in memory are exactly its non-empty fields, collection items exactly the non-empty map entries, and all are linked |
| StructureSync.SyncIsIdempotent | temporal/chasm/tree.go:718-818 | walking a settled tree again changes nothing |
| StructureSync.SettledReportsNothing | temporal/chasm/tree.go:718-818 | and reports nothing |
| Pointers.ResolveDeferredPointers | temporal/chasm/tree.go:1858-1909 | succeeds exactly when every pending pointer has an object with a node, and then every pending field and node is resolved to a node that holds its object, everything else unchanged |
| Pointers.ResolutionKeepsMeaning | temporal/chasm/field.go:71-135 | reading any sub-field of any component in memory yields the same object before and after resolution |
| Pointers.FollowSame | temporal/chasm/field.go:71-135 | following any stored path meets the same object in both trees |
| Pointers.SameNode | temporal/chasm/field_internal.go:30-52 | resolution changes only fields of components and values of pointer nodes |
| Pointers.DeferredHasNode | temporal/chasm/field_internal.go:30-52 | in an aligned tree a pending pointer field has a pointer node under its name |
| PathEncoder.Encode | temporal/chasm/path_encoder.go:47-90 | fails exactly on an empty name or one that holds U+FFFD; otherwise writes the names escaped and joined, with the collection separator last for items |
| PathEncoder.Decode | temporal/chasm/path_encoder.go:92-132 | the loop with its escape flag refines the recursive reading and fails exactly when that does |
| PathEncoder.RoundTrip | temporal/chasm/path_encoder.go:47-132 | decoding an encoded path gives the path back, whichever separator comes last |
| PathEncoder.EncodingIsInjective | temporal/chasm/path_encoder.go:47-90 | two paths with one key are the same path |
| PathEncoder.KindShowsInKey | temporal/chasm/path_encoder.go:61-69 | below the top level a path has two keys, one as an item and one as any other child |
| PathEncoder.SubtreeRange | temporal/chasm/path_encoder.go:26-66 | for a node that is not an item, the keys from its own up to its own followed by `%` are exactly those of the node and its descendants |
| PathEncoder.CollectionRange | temporal/chasm/path_encoder.go:26-66 | the keys from a collection's followed by `#` up to its own followed by `$` are exactly those of its items |
| PathEncoder.ItemRangeFindsOnlyTheItem | temporal/chasm/path_encoder.go:63-66 | the same range taken from an item's key finds the item and none of its descendants |
| Transactions.SerializeNodes | temporal/chasm/tree.go:1525-1563 | succeeds exactly when every node can be serialized; then exactly the dirty nodes are stamped, noted as updated and taken off the deleted ones |
| Transactions.UpdateNodeTasks | temporal/chasm/tree.go:1591-1617 | fails exactly when a validator fails or attributes clash; otherwise the node and the emissions are those of prune, append and scan |
| Transactions.UpdateComponentTasks | temporal/chasm/tree.go:1565-1643 | in any node order, each node's emissions are its own; offsets of different nodes do not overlap; the chosen pure task is least in the whole tree, and at most one timer goes out, exactly when that task has none |
| Transactions.NewKeysAreUnique | temporal/chasm/tree.go:1734-1806 | transition and offset name one new task of one kind in one node of the tree |
| Engine.Close | temporal/chasm/tree.go:1290-1336 | on success the tree, the mutation and the physical tasks are those of a good run; on failure it names a real obstacle; the validators read the tree as it is once it is serialized |
| Engine.ObstaclesStopTheClose | temporal/chasm/tree.go:1290-1336 | no good run gets past an obstacle: an unencodable deleted path, dirt left over, a dangling pointer, a node that cannot be serialized, a failing validator |
| Engine.PointerInMapStopsTheClose | temporal/chasm/tree.go:1868-1871 | a fresh pointer in a map of a visited component rules out every good run |
| Engine.ResetTaskStatus | temporal/chasm/tree.go:2190-2214 | every status is cleared, and it reports whether any was set |
| Engine.Refresh | temporal/chasm/tree.go:2166-2188 | every node is reset, and exactly those with a status are noted |
| NodeLedgers.CloseIsLedgerStep | temporal/chasm/tree.go:1591-1617 | what a close does to a node's side-effect list and hands out for it is a step of the list's ledger |
| NodeLedgers.EveryTaskIsHandedOutOnce | temporal/chasm/tree.go:1591-1617 | over every run of the tree and for every node, with replicated updates of that node in order: no side-effect key goes out twice since the last refresh or since the node arrived, a task the node has went out exactly when it is marked, and after a close every task it has went out exactly once |
| NodeLedgers.EveryNodeOpens | temporal/chasm/tree.go:1591-1617 | every node of a steady and dated tree in which created tasks come first has a ledger from which such a run can start |
| ChasmTrees.ChasmTree.constructor | temporal/chasm/tree.go:267-296 | starts with no pending change and no physical task of its own; storage and the tasks of earlier lives of the tree are given |
| ChasmTrees.LoadedTreeIsTracked | temporal/chasm/tree.go:219-245 | a tree loaded from a well-keyed store of nodes as closes leave them is tracked, has its timers in the log and is coherent |
| ChasmTrees.FreshTreeIsTracked | temporal/chasm/tree.go:248-327 | so is an empty tree whose root has been given a new component |
| ChasmTrees.ChasmTree.CloseTransaction | temporal/chasm/tree.go:1290-1336 | leaves no pending change in either case; on success the tree is the final one and aligned again, the mutation is returned and the emissions are appended; a steady tree stays steady, sorted and dated and keeps its timers, whatever is stored; it is tracked again if and only if its nodes are stored as they are, and storage is exactly the tree if and only if a tracked tree was consistent |
| ChasmTrees.ChasmTree.RefreshTasks | temporal/chasm/tree.go:2166-2188 | in place: same paths, statuses cleared, change noted; keeps the tree steady, tracked, coherent, sorted, dated and timed, each by itself, with no earlier physical task to rely on |
| ChasmTrees.ChasmTree.ApplyMutation | temporal/chasm/tree.go:2006-2051 | in place: deletions with everything below, then updates in any order, both noted; notes of dropped and of replaced nodes keep the old form; keeps the tree sorted, steady and tracked for an orderly mutation, dated and timed if what arrives is fit to be sent, and coherent if components in memory keep their children |
| ChasmTrees.ChasmTree.ApplySnapshot | temporal/chasm/tree.go:2053-2085 | the same for the keys the snapshot lacks and the nodes that differ from it |
| ChasmTrees.ClosedIsAligned | temporal/chasm/tree.go:1290-1336 | after a close the children of every component in memory are exactly its fields |
| ChasmTrees.ViewsKeepCoherence | temporal/chasm/tree.go:1913-1932 | a walk that keeps values, pointers and dirt of structure keeps a tree coherent |
| ChasmTrees.ReplicationKeepsCoherence | temporal/chasm/tree.go:2006-2051 | so do deletions and updates that leave components in memory their children |
| Persistence.PersistenceAgreement | temporal/chasm/tree.go:1290-1336 | removing the deleted keys and writing the updated nodes turns the old store into exactly the new tree if and only if the tree was consistent before the close |
| Persistence.AgreementOnTheState | temporal/chasm/tree.go:1290-1336 | where no refresh note has lost its node: if and only if no stored key is lost unreported and noted updates stay |
| Persistence.NodesAreStoredIff | temporal/chasm/tree.go:1290-1336 | whatever else is stored, afterwards every node of the tree is stored as it is if and only if no note of a refreshed node stands where the tree has another node |
| Persistence.LooseNoteIsWritten | temporal/chasm/tree.go:1330-1334 | a note that has lost its node writes the old form over, or beside, what the tree has |
| Examples.OverwriteDisagrees | temporal/chasm/tree.go:973-974 | a concrete tracked state and a good run of its close after which the store and the tree differ |
| Examples.MidTransactionSyncDisagrees | temporal/chasm/tree.go:2411-2419 | the same state synchronised once before the close: nothing is orphaned by the close itself, and store and tree differ all the same |
| Persistence.OrphanStaysStored | temporal/chasm/tree.go:973-974 | a key lost unreported stays stored although the new tree has no such node |
| Persistence.OrphanIsLost | temporal/chasm/tree.go:973-974 | a stored key the close's own synchronisation orphans is lost, unless it was noted as deleted before |
| Examples.ReplacedRefreshDisagrees | temporal/chasm/tree.go:2153-2184 | a concrete refresh, replicated update and close after which storage holds the old node |
| Examples.RetypedPathIsOrphaned | temporal/chasm/path_encoder.go:61-69 | a concrete overwrite after which a path is in the tree again and its old key is lost unreported |
| Examples.HiddenDirtStopsTheClose | temporal/chasm/tree.go:979-984 | a concrete tree with a dirty component below an unloaded one, which no transaction closes |
| Persistence.MutationOverlapIff | temporal/chasm/tree.go:1330-1334 | a key is both updated and deleted if and only if it was reported as deleted, is not dirty in the synchronised tree, and is noted by a refresh, by replication or by the timer |
| Persistence.ConsistentOverlapIff | temporal/chasm/tree.go:1525-1563 | in a consistent tree: if and only if it was noted as deleted and its node is in the tree again and clean |
| Persistence.DirtyOverlapIff | temporal/chasm/tree.go:1330-1334 | where deleted keys in the tree are dirty: if and only if it is noted, reported as deleted and not in the synchronised tree |
| Examples.ClearedRefreshOverlaps | temporal/chasm/tree.go:2166-2188 | a concrete tracked tree, a refresh, a cleared field and a close that reports the child's key both ways |
| Examples.ReturnedNodeOverlaps | temporal/chasm/tree.go:2087-2164 | a concrete mutation that deletes a node and puts it back, and a close that reports its key both ways |
| Persistence.StoredTreeIsTracked | temporal/chasm/tree.go:219-245 | a tree that is stored as it is starts out tracked |
| Persistence.NewTree | temporal/chasm/tree.go:219-265 | in any order, loading places every stored node and fills the gaps with empty ones; an empty store gives a fresh component root |
| Persistence.LoadUndoesStore | temporal/chasm/tree.go:219-245 | loading what a tree was stored as and flattening it gives back the stored nodes under their keys |
| TransactionRuns.EveryRunIsSteady | temporal/chasm/tree.go:1290-1336 | over every run of mutations, synchronisations, refreshes, orderly replicated mutations and closes, whatever is stored, every node has a serialized form older than the open transaction and notes stand for what they should |
| TransactionRuns.EveryRunPersistsIff | temporal/chasm/tree.go:1290-1336 | over every run from a tracked tree, each close leaves exactly the tree in storage if and only if the tree is consistent before each, and then the change sets keep track |
| TransactionRuns.EveryRunStoresTheTreeIff | temporal/chasm/tree.go:1290-1336 | each close stores every node of the tree as it is if and only if before each the notes of refreshed nodes fit, and then too the change sets keep track |
| TransactionRuns.CloseKeeps | temporal/chasm/tree.go:1290-1336 | a close leaves a steady tree, and with any store a tracked one if and only if the store has its nodes as they are |
| TransactionRuns.DeliveryKeeps | temporal/chasm/tree.go:2006-2164 | a replicated mutation that comes with ancestors and older than the open transaction keeps a tree steady, and a tracked one tracked |
| TransactionRuns.EveryCloseOverlapsIff | temporal/chasm/tree.go:1330-1334 | in every active run a close updates and deletes the same key if and only if that is the key of a refreshed node that was deleted and is not in the tree again |
| TransactionRuns.EveryCloseIsDisjoint | temporal/chasm/tree.go:1525-1563 | so never, in an active run, where the tree is consistent before the close |
| TransactionRuns.ClearedRefreshIsReportedTwice | temporal/chasm/tree.go:2166-2188 | whenever a refreshed node loses its field before the close, its key is both updated and deleted |
| TransactionRuns.ReplacedRefreshIsWritten | temporal/chasm/tree.go:2153-2184 | whenever a refreshed node is replaced by replication before the close, and the timer is not at its key, storage and tree differ |
| TransactionRuns.FinalIsClean | temporal/chasm/tree.go:1525-1643 | after a close every node is clean, of this transaction or older, and a fixed point of the scan for tasks |
| TransactionRuns.FinalIsHandedOut | temporal/chasm/tree.go:1606-1617 | where created tasks come first in every node, a close leaves no side-effect task waiting |
| TransactionRuns.EveryRunKeepsShape | temporal/chasm/tree.go:1606-1617 | over every run with replication in order created tasks stay first in every node, so each close leaves no side-effect task of the tree waiting |
| Replication.ApplyUpdates | temporal/chasm/tree.go:2114-2164 | in any order, the tree has exactly the old paths and the prefixes of new ones; each updated node has the incoming content with local status carried over, nodes of the same version are untouched, and exactly the changed ones are noted |
| Replication.ApplyDeletions | temporal/chasm/tree.go:2087-2112 | in any order, exactly the listed nodes and what lies below are gone and noted |
| Replication.UpdatedPath | temporal/chasm/tree.go:2123-2160 | one update changes its own node and makes missing ancestors, and leaves every other path |
| Replication.CarryNode | temporal/chasm/tree.go:2132-2156 | one existing node: if both sides are components both lists take over the local status, otherwise the incoming node is taken as it is |
| Replication.ChildFirstKeepsForeignStatus | temporal/chasm/tree.go:2132-2156 | child-first and parent-first agree on the parent if and only if the sender's status is empty |
| Replication.NewNodesHaveNoStatus | temporal/chasm/tree.go:2132-2156 | with parents first, or an empty status, new nodes start without one |
| Replication.AppliedIsSorted | temporal/chasm/tree.go:2114-2164 | sorted updates leave a sorted tree sorted |
| Replication.SnapshotInternal | temporal/chasm/tree.go:1976-1998 | the recursive walk, its children in any order, adds every node of the subtree updated after the given version under its full path, and changes nothing else collected so far |
| Replication.WalkIsSnapshot | temporal/chasm/tree.go:1959-1998 | from the root it yields exactly the nodes with a later last update |
| Convergence.MutationLands | temporal/chasm/tree.go:2006-2051 | a mutation that leads from a tree to a target makes it mirror the target, whatever the order |
| Convergence.SnapshotLandsIff | temporal/chasm/tree.go:2053-2164 | applying a prefix-closed snapshot leaves exactly its paths with its replicated content if and only if nothing at or below a path that changed its kind is skipped as unchanged |
| Convergence.SnapshotTwice | temporal/chasm/tree.go:2053-2085 | applying it again has nothing to delete and nothing to update |
| Convergence.CloseIsSourceStep | temporal/chasm/tree.go:1045-1051 | a close gives every node it changes the new version and leaves the replicated content of the others |
| Convergence.TransactionIsSourceStep | temporal/chasm/tree.go:1045-1051 | so does a whole transaction of mutations, synchronisations, refreshes and one close, whatever is stored |
| Convergence.IncrementalReplicationConverges | temporal/chasm/tree.go:1976-2164 | a source with dated lists closes at m and a replica mirrors it; after any number of further transactions of the source, whatever they leave in storage, the snapshot since m and the paths gone since m make the replica mirror it again |
| Convergence.ClosedIsBounded | temporal/chasm/tree.go:1045-1051 | after a close no node and no task is newer than its transition, and lists are sorted |
| PureTimers.EarliestTimerIsOut | temporal/chasm/tree.go:1619-1642 | after a close, if any pure task exists, a timer for the earliest scheduled time in the whole tree has been handed out in this cluster, and the close handed out at most one |
| PureTimers.EveryRunKeepsTimers | temporal/chasm/tree.go:1828-1853 | over every run, with replication of what is fit to be sent and whatever is stored, each task marked created has its timer in the log since the last refresh, and lists stay sorted and older than the next transaction |
| PureTimers.EarliestTimerAfterEveryRun | temporal/chasm/tree.go:1619-1642 | so at every close of every run a timer for the earliest pure task of the tree has gone out in this cluster since the last refresh |
| PureTimers.ClosedIsDated | temporal/chasm/tree.go:1591-1643 | whatever timers are out, a close keeps lists sorted and older than the next transaction |
| PureTimers.ReplicationTimers | temporal/chasm/tree.go:2506-2554 | deletions and updates keep that, provided incoming tasks are older than the next transaction and foreign status cannot slip in |
| PureTaskRun.PrefixIsAllExpiredIff | temporal/chasm/tree.go:2363-2376 | in a sorted list the prefix up to the first unexpired task is exactly the expired tasks if and only if no task without a time precedes an expired one |
| PureTaskRun.TruncateIsMonotone | temporal/chasm/tree.go:2371-2375 | truncation to the timer precision keeps the order of times |
| PureTaskRun.EachNodePureTask | temporal/chasm/tree.go:2432-2484 | one node is offered exactly its expired prefix, in order |
| PureTaskRun.EachPureTask | temporal/chasm/tree.go:2381-2425 | the walk ends with at most one restart per node that had pure tasks; every node still there is offered its expired prefix exactly once, no node twice, and nothing else is offered |
| PureTaskRun.SyncTasked | temporal/chasm/tree.go:570-613 | synchronising never adds a node with tasks |
| VisibilityTasks.Visibility.GenerateTask | temporal/chasm/visibility.go:149-158 | each call raises the count and queues one request that carries it |
| VisibilityTasks.Visibility.constructor | temporal/chasm/visibility.go:43-54 | a new component has already asked once |
| VisibilityTasks.OneVisibilityTask | temporal/chasm/visibility.go:149-171 | however often the component changed, the close leaves one visibility task with the component's count and hands out exactly that one |
| VisibilityTasks.UpdateLists | temporal/chasm/tree.go:1513-1518 | a transaction hands out one task exactly when the component changed or its status was reset |
| VisibilityTasks.EveryRunStaysCurrent | temporal/chasm/visibility.go:149-171 | over every run there is at most one task, for the current count, and counts go out in order |
| VisibilityTasks.NewestCountIsSent | temporal/chasm/visibility.go:149-171 | a transaction that changed the component adds one physical task with a count above all earlier ones |
| CachingRedirector.Redirector.FillEntry | temporal/client/history/caching_redirector.go:133-152 | under the lock: a fresh entry is returned, a stale one replaced by what membership names, or dropped if that fails |
| CachingRedirector.Redirector.DeleteByAddress | temporal/client/history/caching_redirector.go:181-190 | exactly the entries of that host go |
| CachingRedirector.Redirector.HandleOwnershipLost | temporal/client/history/caching_redirector.go:192-212 | the entry goes if it still names the host; a different named owner is cached and tried |
| CachingRedirector.Redirector.CheckStale | temporal/client/history/caching_redirector.go:242-264 | marks exactly the unmarked entries membership disagrees with and drops those past their deadline |
| CachingRedirector.Redirector.GetOrCreateEntry | temporal/client/history/caching_redirector.go:122-152 | with anything between the two looks: the first look's entry if fresh, else what the locked look leaves |
| CachingRedirector.Redirector.RedirectLoop | temporal/client/history/caching_redirector.go:97-120 | each further attempt goes to the owner the last one named and never to the host just tried; a host found down is in no entry afterwards, and a host that lost the shard is not its cached owner |
| CachingRedirector.EveryRunStaysFiled | temporal/client/history/caching_redirector.go:154-212 | over every interleaving each entry sits under its own shard |
| CachingRedirector.MarkStays | temporal/client/history/caching_redirector.go:242-264 | a marked entry is never unmarked: until something is added it stays as it is or goes |
| CachingRedirector.StaleOwnerIsNotServed | temporal/client/history/caching_redirector.go:122-152 | after a check at t that finds the owner wrong, a read that begins later with the clock at or past t + ttl, with nothing added meanwhile, yields what membership then names |
| ShardMapping.MapShardID | temporal/common/util.go:401-433 | panics exactly if neither count divides the other; for a shard that exists, lists without repetition and without leaving int32 exactly the target shards that share a key with it |
| ShardMapping.SharesKeyIff | temporal/common/util.go:393-399 | two shards share a key exactly when they agree modulo the smaller count |
| ShardMapping.ShardsAgree | temporal/common/util.go:393-399 | the shard of a key under the larger count determines the one under the smaller |
| ShardMapping.MappingIsSymmetric | temporal/common/util.go:401-433 | a shard is mapped to exactly the shards that are mapped to it, and mapping to no fewer shards and back gives the shard alone |
| ShardMapping.MappingPartitions | temporal/common/util.go:401-433 | mapping to no fewer shards partitions the target range |
| ShardMapping.VerifyAcceptsSharedKeys | temporal/common/util.go:435-457 | for real shards the check accepts exactly the pairs that can hold one key |
| LoadBalancer.TaskQueueLoadBalancer.EnsurePartitionCount | temporal/client/matching/loadbalancer.go:186-200 | grows with zeros or truncates, and keeps the rest |
| LoadBalancer.TaskQueueLoadBalancer.PickWithFewestPolls | temporal/client/matching/loadbalancer.go:169-184 | whatever the random start and in spite of the early exit, the pick has the fewest polls |
| LoadBalancer.TaskQueueLoadBalancer.PickReadPartition | temporal/client/matching/loadbalancer.go:139-152 | takes an allowed step: a least partition of the resized counts is raised and its token handed out |
| LoadBalancer.TaskQueueLoadBalancer.ForceReadPartition | temporal/client/matching/loadbalancer.go:154-166 | raises the given partition, growing the counts if needed |
| LoadBalancer.TaskQueueLoadBalancer.ReleaseToken | temporal/client/matching/loadbalancer.go:202-209 | lowers the count if the partition still exists and has polls |
| LoadBalancer.EveryRunIsBounded | temporal/client/matching/loadbalancer.go:139-209 | in every run with any resizing no count is negative or above the tokens out for its partition |
| LoadBalancer.FixedCountIsExact | temporal/client/matching/loadbalancer.go:139-209 | with a fixed partition count the counts are the tokens out |
| LoadBalancer.PicksAreEven | temporal/client/matching/loadbalancer.go:139-184 | picks without releases leave counts within one of each other that add up to the number of picks |
| LoadBalancer.StepIsPreciseIff | temporal/client/matching/loadbalancer.go:139-209 | with any resizing, a step keeps counts equal to tokens if and only if it cuts off no partition that has polls |
| LoadBalancer.RunIsPreciseIff | temporal/client/matching/loadbalancer.go:139-209 | the same all along a run |
| LoadBalancer.ResizingForgets | temporal/client/matching/loadbalancer.go:186-200 | a concrete run after which a partition counts no polls although a token is out |
| MovingAverage.MovingWindowAvg.constructor | temporal/common/aggregate/moving_window_average.go:31-40 | starts with an empty queue |
| MovingAverage.MovingWindowAvg.Record | temporal/common/aggregate/moving_window_average.go:42-58 | the ring buffer is a queue of the last size - 1 samples, and sum and count are those of the queue |
| MovingAverage.MovingWindowAvg.ExpireOldValues | temporal/common/aggregate/moving_window_average.go:71-79 | drops samples from the front up to the first young one |
| MovingAverage.MovingWindowAvg.Average | temporal/common/aggregate/moving_window_average.go:60-69 | the mean of what is left, or zero |
| MovingAverage.AverageIsOfTheYoung | temporal/common/aggregate/moving_window_average.go:60-79 | with a clock that never goes back, after any run the average is of exactly the samples younger than the window among the last size - 1 recorded |

## Left out

- `api/`, `worker/`, `frontend/`, generated clients, retry and metric wrappers, process wiring: no invariants of their own.
- Go reflection and proto encoding: component values are a data string and a map of fields, and the codec is lossless. Conversion of map keys to strings is not modelled.
- Pointers between Go objects: nodes are values in a tree. Sharing between change sets and nodes is modelled (`Live` and `Stale` entries); a field moved from one component to another is not.
- Paths are values; that paths yielded by a walk may share a backing array is not modelled.
- Keys are kept decoded, as path and kind; that different keys have different strings is `PathEncoder.EncodingIsInjective` and `PathEncoder.KindShowsInKey`. A node's cached key is taken to be the one its parent gives it, so a replicated update that turns a collection with children into something else, or back, is outside the runs.
- Replicated mutations arrive decoded, with one node per path. In the runs an update comes with its ancestors or finds them, is older than the open transaction, and puts back no node of the version that was dropped in the same transaction; results on timers and task lists also take incoming lists to be sorted, older than the open transaction and without a status that could slip in (`Replication.ChildFirstKeepsForeignStatus`).
- Steps of a close before serialization that act on user code: root lifecycle changes, forced visibility updates from search attributes and memo, immediate pure tasks.
- Pointers are resolved on every close; the flag that skips the walk when there are none is not modelled.
- A failed close: what it leaves half done in the tree, and physical tasks it handed out before failing.
- A validator reads the tree, and its verdict stays the same throughout one close; that reading loads values into memory is not modelled.
- Rehydration of the root and of search attributes after a mutation or snapshot, access rules, references, termination, the cache of task values beyond which blobs leave it.
- Code outside the cited files: registry, state machine library, client cache, the basic redirector.
- gRPC connections and their backoff; the membership resolver is an arbitrary, changing answer.
- The farm hash is an arbitrary 32-bit number; int64 overflow of counts and sums; rounding of the average.
- The zero time stands for "no deadline" in the cache; `CachingRedirector.StaleOwnerIsNotServed` assumes clock readings after it.
- ChasmTrees.ChasmTree.ApplyMutation: does not model the error for a path that cannot be decoded, because paths are kept decoded.
- Persistence.NewTree: does not model that error either, for the same reason.
- PureTaskRun.EachPureTask: on failure nothing is stated about the offers made; a node is told apart by its path and the transition that made it, so nodes with pure tasks must be older than the running transaction.
- NodeLedgers.EveryTaskIsHandedOutOnce: assumes of a replicated update that the tasks it brings to a component are newer than all this cluster has seen of it; without that an old task could come back.
- Convergence.IncrementalReplicationConverges: the deletions are the paths gone since m; how the source remembers them is outside these files.
- ShardMapping.MapShardID: for numbers that are no shards of the source only the length of the result is stated; the code computes something for them and no caller uses it.
- VisibilityTasks.OneVisibilityTask: the payload of a visibility task is assumed to decode to the count it was made from.
