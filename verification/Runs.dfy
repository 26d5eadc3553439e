/** Whole runs of transactions: the stored nodes and the tree agree whenever one has closed. */
module TransactionRuns {
  import opened Wrappers
  import opened Versions
  import opened Tasks
  import opened TaskLists
  import opened Trees
  import opened StructureSync
  import opened Transactions
  import opened Engine
  import opened Persistence
  import opened Replication

  /** Storage, the tree with its open change sets, and the transition the open transaction will get. */
  datatype World = World(stored: Store, s: State, next: VT)

  /** A replicated mutation: deletions, then updates, with the trees it went through. */
  datatype Delivery = Delivery(deleted: set<Path>, updated: Updates, items: set<Path>, mid: Tree, end: Tree)

  datatype Action =
    | Mutate(root: Tree)
    | SyncNow
    | RefreshAll
    | Replicate(m: Delivery)
    | CloseTx(c: Closing, run: Run, after: VT)

  /** Component code loads values, changes them and so makes nodes dirty; serialized forms stay. */
  ghost predicate Mutates(t: Tree, t': Tree) {
    forall p :: MutatesAt(t, t', p)
  }

  ghost predicate MutatesAt(t: Tree, t': Tree, p: Path) {
    && (Has(t', p) <==> Has(t, p))
    && (Has(t, p) ==>
          var before, after := ItemAt(t, p), ItemAt(t', p);
          after.ser == before.ser && after.state != Undefined && (Clean(after) ==> Clean(before)))
  }

  /** The mutation was applied to the tree, and every node in it may be. */
  ghost predicate Delivers(w: World, m: Delivery) {
    && [] !in m.deleted && Removed(w.s.root, m.mid, m.deleted) && Applied(m.mid, m.end, m.updated, m.updated.Keys)
    && forall q :: Orderly(w, m, q)
  }

  /**
    An update comes with its ancestors, under the key it has in the tree, is older than the open
    transaction and does not retype a collection. A node put back where one was dropped in this
    transaction is of another version.
   */
  ghost predicate Orderly(w: World, m: Delivery, q: Path) {
    q in m.updated ==>
      var ser, key := m.updated[q], KeyAt(m.end, q);
      && Less(ser.last, w.next) && (key.item <==> q in m.items)
      && (forall n :: 0 <= n < |q| ==> q[..n] in m.updated || Has(m.mid, q[..n]))
      && (Has(m.mid, q) ==> (CollectionNode(ItemAt(m.mid, q)) <==> ser.attrs.CollectionAttributes?))
      && (!Has(m.mid, q) && Has(w.s.root, q) ==>
            ItemAt(w.s.root, q).ser.Some? && ser.last != ItemAt(w.s.root, q).ser.value.last)
      && (key in w.s.system && w.s.system[key].Stale? ==> ser.last != w.s.system[key].ser.last)
  }

  ghost predicate Allowed(w: World, a: Action) {
    match a
    case Mutate(root) => Mutates(w.s.root, root)
    case SyncNow => true
    case RefreshAll => true
    case Replicate(m) => Delivers(w, m)
    case CloseTx(c, run, after) => c.next == w.next && Less(w.next, after) && GoodRun(w.s, c, run)
  }

  /** What arrives has sorted tasks older than the open transaction, and no status that could slip in. */
  ghost predicate Sendable(w: World, a: Action) {
    a.Replicate? ==> forall q :: Deliverable(a.m.mid, a.m.updated, w.next, q)
  }

  ghost function ResetNodes(nodes: map<Path, Item>): map<Path, Item> {
    map p | p in nodes :: ResetItem(nodes[p])
  }

  /** The state after a replicated mutation: updates and deletions noted, notes of dropped nodes cut loose. */
  ghost function Delivered(s: State, m: Delivery): State {
    var gone, changed := Detached(s.root, m.deleted), Changed(m.mid, m.updated);
    State(m.end,
          AllLive(LetGo(s.updated, s.root, gone), KeysFor(changed, m.items)),
          s.deleted + AllBelow(s.root, m.deleted),
          LetGo(LetGo(s.system, s.root, gone), m.mid, changed))
  }

  ghost function Refreshed(s: State): State {
    var nodes := Flat(s.root);
    s.(root := Regrow(s.root, ResetNodes(nodes), []), system := AllLive(s.system, KeysIn(nodes, ResetPaths(nodes))))
  }

  ghost function Synchronised(s: State, next: VT): State {
    State(SyncSubComponents(s.root, next), Detach(s.updated, s.root),
          s.deleted + Deleted(s.root), Detach(s.system, s.root))
  }

  ghost function Do(w: World, a: Action): World {
    match a
    case Mutate(root) => w.(s := w.s.(root := root))
    case SyncNow => w.(s := Synchronised(w.s, w.next))
    case RefreshAll => w.(s := Refreshed(w.s))
    case Replicate(m) => w.(s := Delivered(w.s, m))
    case CloseTx(c, run, after) =>
      World(Apply(w.stored, ReturnedMutation(w.s, c, run)),
            State(Regrow(run.resolved, FinalNodes(run, c), []), map[], {}, map[]),
            after)
  }

  // ----------------------------------------------------- each action

  lemma MutateKey(t: Tree, t': Tree, p: Path)
    requires Mutates(t, t')
    ensures KeyAt(t', p) == KeyAt(t, p)
  {
    hide Has, FindNode;
    if |p| > 1 {
      assert MutatesAt(t, t', p[..|p| - 1]);
    }
  }

  lemma MutateKeepsAt(w: World, root: Tree, k: NodeKey)
    requires Mutates(w.s.root, root)
    ensures SteadyAt(w.s, w.next, k) ==> SteadyAt(w.s.(root := root), w.next, k)
    ensures TracksAt(w.stored, w.s, k) ==> TracksAt(w.stored, w.s.(root := root), k)
  {
    hide Has, FindNode, KeyAt, Scanned;
    assert MutatesAt(w.s.root, root, k.path);
    MutateKey(w.s.root, root, k.path);
  }

  lemma SyncKeepsSteadyAt(w: World, k: NodeKey)
    requires Steady(w.s, w.next)
    ensures SteadyAt(Synchronised(w.s, w.next), w.next, k)
  {
    hide SyncSubComponents, Has, FindNode, Where, Deleted, Orphans, KeyAt, Detach, Leaves;
    assert SteadyAt(w.s, w.next, k);
    SyncedAt(w.s, w.next, k);
    DetachedAt(w.s, w.next, w.s.updated, k);
    DetachedAt(w.s, w.next, w.s.system, k);
    if Has(SyncSubComponents(w.s.root, w.next), k.path) {
      SyncedIsSteady(w, k.path);
    }
    if Leaves(w.s.root, k.path) {
      LeavesTree(w.s.root, k.path);
      SteadyPath(w.s, w.next, k.path);
    }
  }

  lemma SyncKeepsAt(w: World, k: NodeKey)
    requires Steady(w.s, w.next) && TracksAt(w.stored, w.s, k)
    ensures TracksAt(w.stored, Synchronised(w.s, w.next), k)
  {
    hide SyncSubComponents, Has, FindNode, Where, Deleted, Orphans, Scanned, KeyAt, Detach, Leaves;
    SyncedAt(w.s, w.next, k);
    DetachedAt(w.s, w.next, w.s.updated, k);
    DetachedAt(w.s, w.next, w.s.system, k);
  }

  /** Nodes of the synchronised tree are steady too: they are old ones, or new and without tasks. */
  lemma SyncedIsSteady(w: World, p: Path)
    requires Steady(w.s, w.next) && Has(SyncSubComponents(w.s.root, w.next), p)
    ensures SteadyNode(ItemAt(SyncSubComponents(w.s.root, w.next), p), w.next)
  {
    hide SyncSubComponents, Has, FindNode, Where;
    if Has(w.s.root, p) {
      SteadyPath(w.s, w.next, p);
    }
    SyncPath(w.s.root, w.next, p);
  }

  lemma LeavesTree(t: Tree, p: Path)
    requires Leaves(t, p)
    ensures Has(t, p)
  {
  }

  lemma ResetFacts(item: Item)
    ensures ResetItem(item).state == item.state
    ensures item.ser.Some? ==> ResetItem(item).ser.Some? && ResetItem(item).ser.value.last == item.ser.value.last
    ensures CreatedFirst(SideEffectsOf(ResetItem(item)))
    ensures !Resets(item) ==> ResetItem(item) == item
  {
    if IsComponent(item) && !Resets(item) {
      var attrs := item.ser.value.attrs;
      assert Reset(attrs.sideEffects) == attrs.sideEffects && Reset(attrs.pures) == attrs.pures;
    }
  }

  /** Node by node, a refresh resets; no path and no key changes. */
  lemma RefreshedAt(s: State, p: Path)
    ensures Has(Refreshed(s).root, p) <==> Has(s.root, p)
    ensures Has(s.root, p) ==> ItemAt(Refreshed(s).root, p) == ResetItem(ItemAt(s.root, p))
  {
    hide Has, FindNode, Regrow, ResetItem, KeysIn, ResetPaths;
    var nodes, t' := Flat(s.root), Refreshed(s).root;
    FlatRegrow(s.root, ResetNodes(nodes));
    assert p in Flat(t') <==> p in nodes;
    if p in nodes {
      assert ItemAt(t', p) == Flat(t')[p] == ResetItem(nodes[p]);
    }
  }

  lemma RefreshedKey(s: State, p: Path)
    ensures KeyAt(Refreshed(s).root, p) == KeyAt(s.root, p)
  {
    hide Has, FindNode, Refreshed, ResetItem;
    if |p| > 1 {
      RefreshedAt(s, p[..|p| - 1]);
      if Has(s.root, p[..|p| - 1]) {
        ResetKind(ItemAt(s.root, p[..|p| - 1]));
      }
    }
  }

  lemma RefreshNotes(s: State, k: NodeKey)
    ensures Refreshed(s).updated == s.updated && Refreshed(s).deleted == s.deleted
    ensures var reset := InTree(s.root, k) && Resets(ItemAt(s.root, k.path));
      && (k in Refreshed(s).system <==> k in s.system || reset)
      && (k in Refreshed(s).system ==> Refreshed(s).system[k] == if reset then Live else s.system[k])
  {
    hide Has, FindNode, Regrow, Resets, KeysIn, KeyAt, KeyIn, AllLive;
    var nodes := Flat(s.root);
    KeyInFlat(s.root, k.path);
    LiveAt(s.system, KeysIn(nodes, ResetPaths(nodes)), k);
  }

  lemma RefreshKeepsAt(w: World, k: NodeKey)
    ensures SteadyAt(w.s, w.next, k) ==> SteadyAt(Refreshed(w.s), w.next, k)
    ensures TracksAt(w.stored, w.s, k) ==> TracksAt(w.stored, Refreshed(w.s), k)
  {
    hide ResetItem, Resets, Has, FindNode, CreatedFirst, Scanned, Refreshed, KeyAt;
    RefreshedAt(w.s, k.path);
    RefreshedKey(w.s, k.path);
    RefreshNotes(w.s, k);
    if Has(w.s.root, k.path) {
      ResetFacts(ItemAt(w.s.root, k.path));
    }
  }

  lemma RefreshKeeps(w: World)
    ensures Steady(w.s, w.next) ==> Steady(Refreshed(w.s), w.next)
    ensures Tracks(w.stored, w.s, w.next) ==> Tracks(w.stored, Refreshed(w.s), w.next)
  {
    hide TracksAt, SteadyAt, Refreshed;
    forall k
      ensures SteadyAt(w.s, w.next, k) ==> SteadyAt(Refreshed(w.s), w.next, k)
      ensures TracksAt(w.stored, w.s, k) ==> TracksAt(w.stored, Refreshed(w.s), k)
    {
      RefreshKeepsAt(w, k);
    }
  }

  // ---------------------------------------------------- replication

  /** A node that is not deleted keeps its key. */
  lemma DeliveredKey(w: World, m: Delivery, q: Path)
    requires Steady(w.s, w.next) && Delivers(w, m) && Has(m.mid, q)
    ensures Has(m.end, q) && KeyAt(m.end, q) == KeyAt(w.s.root, q)
  {
    hide Has, FindNode, Incoming, SameVersion, SteadyNode;
    RemovedKey(w.s.root, m.mid, m.deleted, q);
    assert AppliedAt(m.mid, m.end, m.updated, m.updated.Keys, q);
    if |q| > 1 {
      var p := q[..|q| - 1];
      TreeIsPrefixClosed(m.mid, q, |q| - 1);
      DeliveredKind(w, m, p);
    }
  }

  lemma DeliveredKind(w: World, m: Delivery, p: Path)
    requires Steady(w.s, w.next) && Delivers(w, m) && Has(m.mid, p)
    ensures Has(m.end, p) && (CollectionNode(ItemAt(m.end, p)) <==> CollectionNode(ItemAt(m.mid, p)))
  {
    hide Has, FindNode, SameVersion;
    assert AppliedAt(m.mid, m.end, m.updated, m.updated.Keys, p) && RemovedAt(w.s.root, m.mid, m.deleted, p);
    SteadyPath(w.s, w.next, p);
    assert Orderly(w, m, p);
  }

  /** Nodes of the new tree: those the mutation leaves alone, and those it brought. */
  lemma DeliveredNode(w: World, m: Delivery, q: Path)
    requires Steady(w.s, w.next) && Delivers(w, m) && Has(m.end, q)
    ensures Has(m.mid, q) && q !in Changed(m.mid, m.updated) ==>
      Has(w.s.root, q) && ItemAt(m.end, q) == ItemAt(w.s.root, q)
    ensures !(Has(m.mid, q) && q !in Changed(m.mid, m.updated)) ==>
      && q in Changed(m.mid, m.updated)
      && ItemAt(m.end, q).ser.Some? && ItemAt(m.end, q).state == NeedDeserialize
      && ItemAt(m.end, q).ser.value.last == m.updated[q].last
  {
    hide Has, FindNode, ResetSer, CarrySer, SameVersion;
    assert AppliedAt(m.mid, m.end, m.updated, m.updated.Keys, q) && RemovedAt(w.s.root, m.mid, m.deleted, q);
    if Has(w.s.root, q) {
      SteadyPath(w.s, w.next, q);
    }
    if !Has(m.mid, q) {
      var r :| r in m.updated && q <= r;
      assert Orderly(w, m, r) && q == r[..|q|];
      assert |q| == |r| ==> q == r;
    }
    if q in m.updated {
      var known := Has(m.mid, q) && ItemAt(m.mid, q).ser.Some?;
      SentVersions(if known then ItemAt(m.mid, q).ser.value else m.updated[q], m.updated[q]);
    }
  }

  lemma SentVersions(local: SerializedNode, ser: SerializedNode)
    ensures ResetSer(ser).last == ser.last && CarrySer(local, ser).last == ser.last
  {
  }

  /** What becomes of a note when nodes are dropped. */
  ghost function NoteAfter(e: Entry, t: Tree, gone: set<Path>, q: Path): Entry {
    if e.Live? && q in gone && Has(t, q) && ItemAt(t, q).ser.Some? then Stale(ItemAt(t, q).ser.value) else e
  }

  lemma LetGoAt(entries: map<NodeKey, Entry>, t: Tree, gone: set<Path>, k: NodeKey)
    ensures k in LetGo(entries, t, gone) <==> k in entries
    ensures k in entries ==> LetGo(entries, t, gone)[k] == NoteAfter(entries[k], t, gone, k.path)
  {
  }

  /** The notes for one key after a replicated mutation, and the nodes they are about. */
  lemma DeliveredNotes(w: World, m: Delivery, k: NodeKey)
    requires Steady(w.s, w.next) && Delivers(w, m)
    ensures var q, gone, changed, s' := k.path, Detached(w.s.root, m.deleted), Changed(m.mid, m.updated),
                                        Delivered(w.s, m);
      && (k in s'.updated <==> k in w.s.updated || k in KeysFor(changed, m.items))
      && (k in s'.updated && k !in KeysFor(changed, m.items) ==>
            s'.updated[k] == NoteAfter(w.s.updated[k], w.s.root, gone, q))
      && (k in KeysFor(changed, m.items) ==> LiveIn(s'.updated, k))
      && (k in s'.system <==> k in w.s.system)
      && (k in w.s.system ==>
            s'.system[k] == NoteAfter(NoteAfter(w.s.system[k], w.s.root, gone, q), m.mid, changed, q))
  {
    hide Has, FindNode, KeyAt, LetGo, Changed, KeysFor, AllBelow, Detached, AllLive, Delivers, Steady;
    var q, gone, changed := k.path, Detached(w.s.root, m.deleted), Changed(m.mid, m.updated);
    LetGoAt(w.s.updated, w.s.root, gone, k);
    LetGoAt(w.s.system, w.s.root, gone, k);
    LetGoAt(LetGo(w.s.system, w.s.root, gone), m.mid, changed, k);
    LiveAt(LetGo(w.s.updated, w.s.root, gone), KeysFor(changed, m.items), k);
  }

  lemma DeliveryKeepsAt(w: World, m: Delivery, k: NodeKey)
    requires Steady(w.s, w.next) && Delivers(w, m)
    ensures SteadyAt(Delivered(w.s, m), w.next, k)
    ensures TracksAt(w.stored, w.s, k) ==> TracksAt(w.stored, Delivered(w.s, m), k)
  {
    hide Has, FindNode, Scanned, KeyAt, LetGo, Changed, KeysFor, AllBelow, Detached, AllLive, Applied, Removed,
         SameVersion;
    var q := k.path;
    assert SteadyAt(w.s, w.next, k) && Orderly(w, m, q);
    RemovedFacts(w, m, q);
    DeliveredNotes(w, m, k);
    if Has(w.s.root, q) {
      SteadyPath(w.s, w.next, q);
    }
    if Has(m.mid, q) {
      DeliveredKey(w, m, q);
    }
    if Has(m.end, q) {
      DeliveredNode(w, m, q);
    }
  }

  /** What deletions and updates do to one path. */
  lemma RemovedFacts(w: World, m: Delivery, q: Path)
    requires Steady(w.s, w.next) && Delivers(w, m)
    ensures Has(m.mid, q) <==> Has(w.s.root, q) && q !in Detached(w.s.root, m.deleted)
    ensures Has(m.mid, q) ==> ItemAt(m.mid, q) == ItemAt(w.s.root, q)
    ensures forall k :: k in AllBelow(w.s.root, m.deleted) <==>
      InTree(w.s.root, k) && k.path in Detached(w.s.root, m.deleted)
    ensures q in Changed(m.mid, m.updated) ==> q in m.updated && Has(m.end, q)
    ensures q in Changed(m.mid, m.updated) && Has(m.mid, q) && ItemAt(m.mid, q).ser.Some? ==>
      m.updated[q].last != ItemAt(m.mid, q).ser.value.last
  {
    hide Has, FindNode, Orderly, KeyAt, AllBelow, Detached;
    assert RemovedAt(w.s.root, m.mid, m.deleted, q) && AppliedAt(m.mid, m.end, m.updated, m.updated.Keys, q);
    if q in Changed(m.mid, m.updated) {
      assert Covered(m.updated.Keys, q);
    }
    forall k
      ensures k in AllBelow(w.s.root, m.deleted) <==>
        InTree(w.s.root, k) && k.path in Detached(w.s.root, m.deleted)
    {
      if p :| p in m.deleted && p <= k.path {
        assert k.path == [] ==> p == [];
      }
    }
  }

  lemma DeliveryKeeps(w: World, m: Delivery)
    requires Steady(w.s, w.next) && Delivers(w, m)
    ensures Steady(Delivered(w.s, m), w.next)
    ensures Tracks(w.stored, w.s, w.next) ==> Tracks(w.stored, Delivered(w.s, m), w.next)
  {
    hide TracksAt, SteadyAt, Delivered;
    forall k
      ensures SteadyAt(Delivered(w.s, m), w.next, k)
      ensures TracksAt(w.stored, w.s, k) ==> TracksAt(w.stored, Delivered(w.s, m), k)
    {
      DeliveryKeepsAt(w, m, k);
    }
  }

  // ------------------------------------------------------- closing

  lemma TaskedIsShaped(item: Item, c: Closing, offset: int)
    requires IsComponent(item) && CreatedFirst(SideEffectsOf(item))
    ensures CreatedFirst(TaskedAttributes(item, c, offset).sideEffects)
  {
    hide Prune, Stamped, WithNewPures;
    if UpdatedNow(item, c.next) {
      PruneKeepsShape(item.ser.value.attrs.sideEffects, OnTask(c.validate, item.value));
    }
  }

  /** Closing leaves no side-effect task of the node waiting. */
  lemma ClosedIsHandedOut(item: Item, c: Closing, offset: int)
    requires CreatedFirst(SideEffectsOf(item))
    ensures AllCreated(SideEffectsOf(ClosedItem(item, c, offset)))
  {
    hide TaskedAttributes;
    if IsComponent(item) {
      TaskedIsShaped(item, c, offset);
      ScanReachesAllIff(TaskedAttributes(item, c, offset).sideEffects);
    }
  }

  lemma SerializedKeepsTasks(item: Item, p: Path, next: VT)
    requires item.ser.Some? && Ready(item, p, next)
    ensures SideEffectsOf(Serialized(item, next)) == SideEffectsOf(item)
  {
  }

  lemma FinalKeepsSideEffects(run: Run, c: Closing, p: Path)
    requires Has(run.resolved, p) && p in run.offsets
    ensures var closed := ClosedItem(Serialized(ItemAt(run.resolved, p), c.next), c, run.offsets[p]);
      p in FinalNodes(run, c) && FinalNodes(run, c)[p].state == closed.state
      && SideEffectsOf(FinalNodes(run, c)[p]) == SideEffectsOf(closed)
  {
    hide ClosedItem, Serialized, Has, FindNode;
  }

  lemma {:induction false} MarkedIsScanned(tasks: seq<Task>)
    ensures Scanned(Marked(tasks))
  {
    var n := |tasks| - 1;
    if tasks == [] || tasks[n].status == Created {
    } else {
      assert Marked(tasks)[n].status == Created;
    }
  }

  lemma ClosedIsScanned(item: Item, c: Closing, offset: int)
    ensures Scanned(SideEffectsOf(ClosedItem(item, c, offset)))
  {
    hide TaskedAttributes, Marked;
    if IsComponent(item) {
      MarkedIsScanned(TaskedAttributes(item, c, offset).sideEffects);
    } else {
      MarkedIsScanned([]);
      NothingIsMarked();
    }
  }

  lemma NothingIsMarked()
    ensures Marked([]) == []
  {
  }

  /** After a close every node is clean, of this transaction or older, and has nothing left to hand out. */
  lemma FinalIsClean(w: World, c: Closing, run: Run, p: Path)
    requires Steady(w.s, w.next) && c.next == w.next && GoodRun(w.s, c, run)
    requires p in FinalNodes(run, c)
    ensures var item := FinalNodes(run, c)[p];
      && item.ser.Some? && Clean(item) && Scanned(SideEffectsOf(item))
      && (item.ser.value.last == w.next || Less(item.ser.value.last, w.next))
  {
    hide SyncSubComponents, GoodRun, FinalNodes, Serialized, ClosedItem, Has, FindNode, Where, Ready, Scanned, Dirty,
         Flat, TimerPath, Compare, SideEffectsOf, KeyAt;
    RunPaths(w.s, c, run, p);
    SettledAt(w.s, c, run, p);
    SyncedIsSteady(w, p);
    var item := ItemAt(run.resolved, p);
    SerializedFacts(item, p, c.next);
    var ser := Serialized(item, c.next);
    ClosedFacts(ser, c, run.offsets[p]);
    ClosedIsScanned(ser, c, run.offsets[p]);
    FinalItem(run, c, p);
    FinalKeepsSideEffects(run, c, p);
  }

  /** The tree a close leaves, node by node. */
  ghost function ClosedTree(c: Closing, run: Run): Tree {
    Regrow(run.resolved, FinalNodes(run, c), [])
  }

  lemma ClosedTreeAt(s: State, c: Closing, run: Run, p: Path)
    requires GoodRun(s, c, run)
    ensures Flat(ClosedTree(c, run)) == FinalNodes(run, c)
    ensures Has(ClosedTree(c, run), p) <==> p in FinalNodes(run, c)
    ensures p in FinalNodes(run, c) ==> ItemAt(ClosedTree(c, run), p) == FinalNodes(run, c)[p]
    ensures KeyAt(ClosedTree(c, run), p) == KeyIn(FinalNodes(run, c), p)
  {
    hide GoodRun, FinalNodes, Regrow, Has, FindNode, KeyAt, KeyIn;
    FinalIsWhole(s, c, run);
    FlatRegrow(run.resolved, FinalNodes(run, c));
    var t := ClosedTree(c, run);
    assert p in Flat(t) <==> Has(t, p);
    assert Has(t, p) ==> Flat(t)[p] == ItemAt(t, p);
    KeyInFlat(t, p);
  }

  ghost function ClosedState(c: Closing, run: Run): State {
    State(ClosedTree(c, run), map[], {}, map[])
  }

  lemma CloseKeepsAt(w: World, c: Closing, run: Run, after: VT, stored: Store, k: NodeKey)
    requires Steady(w.s, w.next) && c.next == w.next && Less(w.next, after) && GoodRun(w.s, c, run)
    ensures SteadyAt(ClosedState(c, run), after, k)
    ensures TracksAt(stored, ClosedState(c, run), k) <==>
      var want := Serialization(FinalNodes(run, c));
      k in want ==> k in stored && stored[k] == want[k]
  {
    hide Steady, GoodRun, FinalNodes, Has, FindNode, Scanned, KeyAt, KeyIn, ClosedTree, Serialization;
    ClosedTreeAt(w.s, c, run, k.path);
    if k.path in FinalNodes(run, c) {
      FinalIsClean(w, c, run, k.path);
    }
  }

  /** Every close leaves a steady tree, and a tracked one if and only if its nodes are stored as they are. */
  lemma CloseKeeps(w: World, c: Closing, run: Run, after: VT, stored: Store)
    requires Steady(w.s, w.next) && c.next == w.next && Less(w.next, after) && GoodRun(w.s, c, run)
    ensures Steady(ClosedState(c, run), after) && Flat(ClosedTree(c, run)) == FinalNodes(run, c)
    ensures Tracks(stored, ClosedState(c, run), after) <==> Includes(stored, Serialization(FinalNodes(run, c)))
  {
    hide GoodRun, FinalNodes, Serialization, TracksAt, SteadyAt, ClosedState, Flat;
    ClosedTreeAt(w.s, c, run, []);
    forall k
      ensures SteadyAt(ClosedState(c, run), after, k)
      ensures TracksAt(stored, ClosedState(c, run), k) <==>
        var want := Serialization(FinalNodes(run, c));
        k in want ==> k in stored && stored[k] == want[k]
    {
      CloseKeepsAt(w, c, run, after, stored, k);
    }
    NextIsPositive(w.next, after);
  }

  lemma NextIsPositive(a: VT, b: VT)
    requires Less(ZERO, a) && Less(a, b)
    ensures Less(ZERO, b)
  {
  }

  lemma FinalIsWhole(s: State, c: Closing, run: Run)
    requires GoodRun(s, c, run)
    ensures FinalNodes(run, c).Keys == Paths(run.resolved)
  {
    OffsetsCover(c, run);
  }

  // ---------------------------------------------------------- runs

  /** Something holds of every action of a run, in the world in which it is taken. */
  ghost predicate Along(w: World, actions: seq<Action>, good: (World, Action) -> bool)
    decreases |actions|
  {
    actions == [] || (good(w, actions[0]) && Along(Do(w, actions[0]), actions[1..], good))
  }

  ghost predicate AllowedRun(w: World, actions: seq<Action>) {
    Along(w, actions, Allowed)
  }

  ghost function After(w: World, actions: seq<Action>): World
    decreases |actions|
  {
    if actions == [] then w else After(Do(w, actions[0]), actions[1..])
  }

  /** Every allowed action keeps a tree steady, and a tracked one tracked unless it is a close. */
  lemma ActionKeeps(w: World, a: Action)
    requires Steady(w.s, w.next) && Allowed(w, a)
    ensures Steady(Do(w, a).s, Do(w, a).next)
    ensures Tracks(w.stored, w.s, w.next) && !a.CloseTx? ==> Tracks(Do(w, a).stored, Do(w, a).s, Do(w, a).next)
  {
    hide SteadyAt, TracksAt, GoodRun, Delivers, Delivered, Refreshed, Synchronised, Mutates, Regrow, Apply, FinalNodes,
         ReturnedMutation;
    match a
    case Mutate(root) =>
      forall k
        ensures SteadyAt(w.s, w.next, k) ==> SteadyAt(w.s.(root := root), w.next, k)
        ensures TracksAt(w.stored, w.s, k) ==> TracksAt(w.stored, w.s.(root := root), k)
      {
        MutateKeepsAt(w, root, k);
      }
    case SyncNow =>
      forall k
        ensures SteadyAt(Synchronised(w.s, w.next), w.next, k)
        ensures TracksAt(w.stored, w.s, k) ==> TracksAt(w.stored, Synchronised(w.s, w.next), k)
      {
        SyncKeepsSteadyAt(w, k);
        if TracksAt(w.stored, w.s, k) {
          SyncKeepsAt(w, k);
        }
      }
    case RefreshAll => RefreshKeeps(w);
    case Replicate(m) => DeliveryKeeps(w, m);
    case CloseTx(c, run, after) => CloseKeeps(w, c, run, after, w.stored);
  }

  /** Over every run of changes, synchronisations, refreshes, replicated mutations and closes the tree stays steady. */
  lemma {:induction false} EveryRunIsSteady(w: World, actions: seq<Action>)
    requires Steady(w.s, w.next) && AllowedRun(w, actions)
    ensures Steady(After(w, actions).s, After(w, actions).next)
    decreases |actions|
  {
    hide Do, Steady, Allowed;
    if actions == [] {
    } else {
      ActionKeeps(w, actions[0]);
      EveryRunIsSteady(Do(w, actions[0]), actions[1..]);
    }
  }

  // -------------------------------------------------- storage along a run

  ghost predicate ConsistentClose(w: World, a: Action) {
    a.CloseTx? ==> Consistent(w.stored, w.s, w.next, TimerKey(a.run))
  }

  /** After the close, storage is the serialized tree. */
  ghost predicate ExactClose(w: World, a: Action) {
    a.CloseTx? ==> Do(w, a).stored == Serialization(Flat(Do(w, a).s.root))
  }

  ghost predicate FittingClose(w: World, a: Action) {
    a.CloseTx? ==> NotesFit(w.s, w.next, TimerKey(a.run))
  }

  /** After the close, every node of the tree is stored as it is. */
  ghost predicate WholeClose(w: World, a: Action) {
    a.CloseTx? ==> Includes(Do(w, a).stored, Serialization(Flat(Do(w, a).s.root)))
  }

  /** One close: when it stores the tree, when it stores exactly the tree, and what is tracked then. */
  lemma CloseStores(w: World, a: Action)
    requires Tracks(w.stored, w.s, w.next) && Allowed(w, a)
    ensures WholeClose(w, a) <==> FittingClose(w, a)
    ensures ExactClose(w, a) <==> ConsistentClose(w, a)
    ensures WholeClose(w, a) <==> Tracks(Do(w, a).stored, Do(w, a).s, Do(w, a).next)
    ensures ExactClose(w, a) ==> WholeClose(w, a)
  {
    hide Steady, TracksAt, GoodRun, Consistent, NotesFit, Serialization, FinalNodes, ReturnedMutation, Apply, Regrow,
         Flat, Mutates, Delivers, Delivered, Refreshed, Synchronised;
    ActionKeeps(w, a);
    if a.CloseTx? {
      var stored := Apply(w.stored, ReturnedMutation(w.s, a.c, a.run));
      CloseKeeps(w, a.c, a.run, a.after, stored);
      PersistenceAgreement(w.stored, w.s, a.c, a.run);
      NodesAreStoredIff(w.stored, w.s, a.c, a.run);
    }
  }

  /**
    Over every run from a tracked tree: each close leaves exactly the tree in storage if and only if the
    tree was consistent before each.
   */
  lemma {:induction false} EveryRunPersistsIff(w: World, actions: seq<Action>)
    requires Tracks(w.stored, w.s, w.next) && AllowedRun(w, actions)
    ensures Along(w, actions, ExactClose) <==> Along(w, actions, ConsistentClose)
    ensures Along(w, actions, ConsistentClose) ==>
      Tracks(After(w, actions).stored, After(w, actions).s, After(w, actions).next)
    decreases |actions|
  {
    hide Do, Tracks, Allowed, ExactClose, ConsistentClose, WholeClose;
    if actions == [] {
    } else {
      var w1 := Do(w, actions[0]);
      CloseStores(w, actions[0]);
      if ExactClose(w, actions[0]) {
        EveryRunPersistsIff(w1, actions[1..]);
      }
    }
  }

  /**
    Whatever keys are lost: each close stores every node of the tree as it is if and only if before each
    the notes of refreshed nodes fit, and then the change sets never lose track.
   */
  lemma {:induction false} EveryRunStoresTheTreeIff(w: World, actions: seq<Action>)
    requires Tracks(w.stored, w.s, w.next) && AllowedRun(w, actions)
    ensures Along(w, actions, WholeClose) <==> Along(w, actions, FittingClose)
    ensures Along(w, actions, FittingClose) ==>
      Tracks(After(w, actions).stored, After(w, actions).s, After(w, actions).next)
    decreases |actions|
  {
    hide Do, Tracks, Allowed, ExactClose, FittingClose, WholeClose;
    if actions == [] {
    } else {
      var w1 := Do(w, actions[0]);
      CloseStores(w, actions[0]);
      if WholeClose(w, actions[0]) {
        EveryRunStoresTheTreeIff(w1, actions[1..]);
      }
    }
  }

  // ------------------------------------------- where storage goes wrong

  /**
    Refresh the tasks, then replicate a newer version of a node whose status was reset, then close.
    The note of the refresh still holds the old node, and it is what gets written, unless the pure
    timer happens to fall on that node.
   */
  lemma ReplacedRefreshIsWritten(w: World, m: Delivery, c: Closing, run: Run, p: Path)
    requires Steady(w.s, w.next) && Has(w.s.root, p) && Resets(ItemAt(w.s.root, p))
    requires Delivers(Do(w, RefreshAll), m) && Has(m.mid, p) && p in Changed(m.mid, m.updated)
    requires c.next == w.next && GoodRun(Delivered(Refreshed(w.s), m), c, run)
    requires TimerKey(run) != Some(KeyAt(w.s.root, p))
    ensures var s := Delivered(Refreshed(w.s), m);
      Apply(w.stored, ReturnedMutation(s, c, run)) != Serialization(FinalNodes(run, c))
  {
    hide Steady, Delivers, GoodRun, FinalNodes, ReturnedMutation, Refreshed, ResetItem, Resets, Has, FindNode, KeyAt,
         Changed, LetGo, AllLive, KeysFor, AllBelow, Detached, Serialization, Apply;
    var k, w1 := KeyAt(w.s.root, p), Do(w, RefreshAll);
    var s := Delivered(w1.s, m);
    RefreshNotes(w.s, k);
    RefreshedAt(w.s, p);
    ActionKeeps(w, RefreshAll);
    ActionKeeps(w1, Replicate(m));
    RemovedFacts(w1, m, p);
    SteadyPath(w1.s, w1.next, p);
    DeliveredNotes(w1, m, k);
    LooseNoteIsWritten(w.stored, s, c, run, k);
  }

  // ------------------------------------------- the parts of a mutation

  /**
    Refresh the tasks, then clear the field of a node whose status was reset, then close: the note of the
    refresh still names the key, and the deletion names it too.
   */
  lemma ClearedRefreshIsReportedTwice(w: World, root: Tree, c: Closing, run: Run, k: NodeKey)
    requires Steady(w.s, w.next) && InTree(w.s.root, k) && Resets(ItemAt(w.s.root, k.path))
    requires Allowed(Do(w, RefreshAll), Mutate(root)) && k in Deleted(root)
    requires c.next == w.next && GoodRun(After(w, [RefreshAll, Mutate(root)]).s, c, run)
    ensures var m := ReturnedMutation(After(w, [RefreshAll, Mutate(root)]).s, c, run); k in m.updated && k in m.deleted
  {
    hide Steady, GoodRun, ReturnedMutation, Refreshed, Resets, Has, FindNode, KeyAt, Deleted, SyncSubComponents,
         Mutates, Orphans, Leaves;
    var w1 := Do(w, RefreshAll);
    var w2 := Do(w1, Mutate(root));
    assert After(w, [RefreshAll, Mutate(root)]) == w2 by {
      assert [RefreshAll, Mutate(root)][1..] == [Mutate(root)] && [Mutate(root)][1..] == [];
      assert After(w1, [Mutate(root)]) == After(w2, []);
    }
    RefreshNotes(w.s, k);
    ActionKeeps(w, RefreshAll);
    ActionKeeps(w1, Mutate(root));
    SyncedAt(w2.s, w2.next, k);
    MutationOverlapIff(w2.s, c, run, k);
  }

  lemma ActionKeepsDirt(w: World, a: Action)
    requires Steady(w.s, w.next) && Allowed(w, a) && DeletedAreDirty(w.s) && !a.Replicate?
    ensures DeletedAreDirty(Do(w, a).s)
    ensures w.s.updated == map[] ==> Do(w, a).s.updated == map[]
  {
    hide SyncSubComponents, Has, FindNode, Where, Deleted, KeyAt, Orphans, ResetItem, Refreshed, GoodRun, FinalNodes,
         ReturnedMutation, CreatedFirst, Regrow;
    var s' := Do(w, a).s;
    RefreshNotes(w.s, NodeKey([], false));
    forall k | k in s'.deleted && InTree(s'.root, k) ensures !Clean(ItemAt(s'.root, k.path)) {
      match a
      case Mutate(root) =>
        MutateKey(w.s.root, root, k.path);
        assert MutatesAt(w.s.root, root, k.path);
      case SyncNow =>
        SyncedAt(w.s, w.next, k);
        DeletionsAreReported(w.s.root, w.next, k);
      case RefreshAll =>
        RefreshedAt(w.s, k.path);
        RefreshedKey(w.s, k.path);
        RefreshNotes(w.s, k);
        ResetFacts(ItemAt(w.s.root, k.path));
    }
  }

  ghost predicate Active(actions: seq<Action>) {
    forall a :: a in actions ==> !a.Replicate?
  }

  lemma {:induction false} ActiveRunKeepsDirt(w: World, actions: seq<Action>)
    requires Steady(w.s, w.next) && DeletedAreDirty(w.s) && AllowedRun(w, actions) && Active(actions)
    ensures Steady(After(w, actions).s, After(w, actions).next) && DeletedAreDirty(After(w, actions).s)
    ensures w.s.updated == map[] ==> After(w, actions).s.updated == map[]
    decreases |actions|
  {
    hide Do, Steady, DeletedAreDirty, Allowed;
    if actions == [] {
    } else {
      ActionKeeps(w, actions[0]);
      ActionKeepsDirt(w, actions[0]);
      ActiveRunKeepsDirt(Do(w, actions[0]), actions[1..]);
    }
  }

  /**
    In every active run that begins without notes of replicated nodes, the parts of what a close returns
    overlap exactly at keys of refreshed nodes that are deleted and not in the tree again.
   */
  lemma EveryCloseOverlapsIff(w: World, actions: seq<Action>, c: Closing, run: Run, after: VT, k: NodeKey)
    requires Steady(w.s, w.next) && DeletedAreDirty(w.s) && w.s.updated == map[]
    requires AllowedRun(w, actions) && Active(actions) && Allowed(After(w, actions), CloseTx(c, run, after))
    ensures var s, m := After(w, actions).s, ReturnedMutation(After(w, actions).s, c, run);
      k in m.updated && k in m.deleted <==>
        k in s.system && (k in s.deleted || k in Deleted(s.root)) && !InTree(SyncSubComponents(s.root, c.next), k)
  {
    hide Do, Steady, DeletedAreDirty, ReturnedMutation, GoodRun, Deleted, InTree, SyncSubComponents;
    ActiveRunKeepsDirt(w, actions);
    DirtyOverlapIff(After(w, actions).s, c, run, k);
  }

  /** So where the tree is consistent before the close they do not overlap. */
  lemma EveryCloseIsDisjoint(w: World, actions: seq<Action>, c: Closing, run: Run, after: VT, k: NodeKey)
    requires Steady(w.s, w.next) && DeletedAreDirty(w.s) && AllowedRun(w, actions) && Active(actions)
    requires Allowed(After(w, actions), CloseTx(c, run, after))
    requires ConsistentClose(After(w, actions), CloseTx(c, run, after))
    ensures var m := ReturnedMutation(After(w, actions).s, c, run); !(k in m.updated && k in m.deleted)
  {
    hide Do, Steady, DeletedAreDirty, ReturnedMutation, GoodRun, Consistent, DeletedWithNote;
    var w' := After(w, actions);
    ActiveRunKeepsDirt(w, actions);
    DirtyOverlapIff(w'.s, c, run, k);
    ConsistentHasNone(w'.stored, w'.s, c, run, k);
  }

  // ------------------------------------------------ the shape of the lists

  /** In every node the tasks that have a physical task come first. */
  ghost predicate Shaped(t: Tree) {
    forall p :: ShapedAt(t, p)
  }

  ghost predicate ShapedAt(t: Tree, p: Path) {
    Has(t, p) ==> CreatedFirst(SideEffectsOf(ItemAt(t, p)))
  }

  /** Updates of a component bring newer tasks only. */
  ghost predicate InOrderAction(w: World, a: Action) {
    Sendable(w, a) && (a.Replicate? ==> forall q :: Succeeds(a.m, q))
  }

  ghost predicate Succeeds(m: Delivery, q: Path) {
    q in m.updated && Has(m.mid, q) && IsComponent(ItemAt(m.mid, q)) && m.updated[q].attrs.ComponentAttributes? ==>
      var local := ItemAt(m.mid, q).ser.value.attrs.sideEffects;
      Sorted(BySideEffect, local) && InOrder(local, m.updated[q].attrs.sideEffects)
  }

  lemma NothingIsShaped()
    ensures CreatedFirst([])
  {
  }

  lemma NoStatusIsShaped(ser: SerializedNode)
    requires NoStatus(ser)
    ensures CreatedFirst(TasksOf(BySideEffect, ser))
  {
    if ser.attrs.ComponentAttributes? {
      assert Reset(ser.attrs.sideEffects) == ser.attrs.sideEffects;
    }
  }

  /** Created tasks come first in every node the mutation brought. */
  lemma DeliveredIsShaped(w: World, m: Delivery, q: Path)
    requires Steady(w.s, w.next) && Delivers(w, m) && Has(m.end, q) && q in Changed(m.mid, m.updated)
    requires Shaped(w.s.root) && Deliverable(m.mid, m.updated, w.next, q) && Succeeds(m, q)
    ensures CreatedFirst(SideEffectsOf(ItemAt(m.end, q)))
  {
    hide Has, FindNode, CreatedFirst, SortedNode, NoStatus, ResetSer, CarryOver, Sorted, InOrder;
    var ser := m.updated[q];
    assert AppliedAt(m.mid, m.end, m.updated, m.updated.Keys, q) && RemovedAt(w.s.root, m.mid, m.deleted, q);
    assert Orderly(w, m, q) && ShapedAt(w.s.root, q);
    ResetTwice(ser);
    NoStatusIsShaped(ResetSer(ser));
    if NoStatus(ser) {
      NoStatusIsShaped(ser);
    }
    NothingIsShaped();
    if Has(m.mid, q) {
      SteadyPath(w.s, w.next, q);
      var item := ItemAt(m.mid, q);
      if IsComponent(item) && ser.attrs.ComponentAttributes? {
        InOrderKeepsShape(item.ser.value.attrs.sideEffects, ser.attrs.sideEffects);
      }
    }
  }

  lemma DeliveryKeepsShape(w: World, m: Delivery)
    requires Steady(w.s, w.next) && Delivers(w, m) && Shaped(w.s.root) && InOrderAction(w, Replicate(m))
    ensures Shaped(m.end)
  {
    hide Steady, Delivers, Has, FindNode, CreatedFirst, Changed, Deliverable, Succeeds;
    forall q ensures ShapedAt(m.end, q) {
      assert ShapedAt(w.s.root, q);
      if Has(m.end, q) {
        DeliveredNode(w, m, q);
        if q in Changed(m.mid, m.updated) {
          DeliveredIsShaped(w, m, q);
        }
      }
    }
  }

  lemma SyncKeepsShape(t: Tree, next: VT)
    requires Shaped(t)
    ensures Shaped(SyncSubComponents(t, next))
  {
    hide SyncSubComponents, Has, FindNode, Where;
    forall p ensures ShapedAt(SyncSubComponents(t, next), p) {
      assert ShapedAt(t, p);
      SyncPath(t, next, p);
    }
  }

  /** A close hands out everything a shaped tree has left. */
  lemma FinalIsHandedOut(w: World, c: Closing, run: Run, p: Path)
    requires Steady(w.s, w.next) && c.next == w.next && GoodRun(w.s, c, run) && Shaped(w.s.root)
    requires p in FinalNodes(run, c)
    ensures AllCreated(SideEffectsOf(FinalNodes(run, c)[p]))
  {
    hide SyncSubComponents, GoodRun, FinalNodes, Serialized, ClosedItem, Has, FindNode, Ready, AllCreated,
         CreatedFirst, Dirty, Flat, SideEffectsOf, Shaped;
    RunPaths(w.s, c, run, p);
    SyncKeepsShape(w.s.root, w.next);
    SyncedIsSteady(w, p);
    ShapedHere(SyncSubComponents(w.s.root, w.next), p);
    var item := ItemAt(run.resolved, p);
    SerializedKeepsTasks(item, p, c.next);
    ClosedIsHandedOut(Serialized(item, c.next), c, run.offsets[p]);
    FinalKeepsSideEffects(run, c, p);
  }

  lemma ShapedHere(t: Tree, p: Path)
    requires Shaped(t) && Has(t, p)
    ensures CreatedFirst(SideEffectsOf(ItemAt(t, p)))
  {
    hide Has, FindNode;
    assert ShapedAt(t, p);
  }

  lemma ClosedIsShaped(w: World, c: Closing, run: Run)
    requires Steady(w.s, w.next) && c.next == w.next && GoodRun(w.s, c, run) && Shaped(w.s.root)
    ensures Shaped(ClosedTree(c, run))
    ensures forall p :: Has(ClosedTree(c, run), p) ==> AllCreated(SideEffectsOf(ItemAt(ClosedTree(c, run), p)))
  {
    hide GoodRun, FinalNodes, Has, FindNode, SideEffectsOf, ClosedTree, KeyAt, KeyIn, Steady;
    forall p
      ensures ShapedAt(ClosedTree(c, run), p)
      ensures Has(ClosedTree(c, run), p) ==> AllCreated(SideEffectsOf(ItemAt(ClosedTree(c, run), p)))
    {
      ClosedTreeAt(w.s, c, run, p);
      if p in FinalNodes(run, c) {
        FinalIsHandedOut(w, c, run, p);
      }
    }
  }

  lemma ActionKeepsShape(w: World, a: Action)
    requires Steady(w.s, w.next) && Allowed(w, a) && Shaped(w.s.root) && InOrderAction(w, a)
    ensures Shaped(Do(w, a).s.root)
    ensures a.CloseTx? ==> forall p :: Has(Do(w, a).s.root, p) ==> AllCreated(SideEffectsOf(ItemAt(Do(w, a).s.root, p)))
  {
    hide Steady, GoodRun, Delivers, Refreshed, SyncSubComponents, Regrow, Apply, FinalNodes, ReturnedMutation, Has,
         FindNode, CreatedFirst, AllCreated, ResetItem;
    match a
    case Mutate(root) =>
      forall p ensures ShapedAt(root, p) {
        assert ShapedAt(w.s.root, p) && MutatesAt(w.s.root, root, p);
      }
    case SyncNow => SyncKeepsShape(w.s.root, w.next);
    case RefreshAll =>
      forall p ensures ShapedAt(Refreshed(w.s).root, p) {
        RefreshedAt(w.s, p);
        if Has(w.s.root, p) {
          ResetFacts(ItemAt(w.s.root, p));
        }
      }
    case Replicate(m) => DeliveryKeepsShape(w, m);
    case CloseTx(c, run, after) => ClosedIsShaped(w, c, run);
  }

  /**
    Over every run with replication in order created tasks stay first in every node, so that each close
    leaves no side-effect task of the tree waiting.
   */
  lemma {:induction false} EveryRunKeepsShape(w: World, actions: seq<Action>)
    requires Steady(w.s, w.next) && AllowedRun(w, actions) && Shaped(w.s.root) && Along(w, actions, InOrderAction)
    ensures var t := After(w, actions).s.root;
      && Shaped(t)
      && (actions != [] && actions[|actions| - 1].CloseTx? ==>
            forall p :: Has(t, p) ==> AllCreated(SideEffectsOf(ItemAt(t, p))))
    decreases |actions|
  {
    hide Do, Steady, Shaped, Allowed, InOrderAction, Has, FindNode, AllCreated;
    if actions == [] {
    } else {
      ActionKeeps(w, actions[0]);
      ActionKeepsShape(w, actions[0]);
      EveryRunKeepsShape(Do(w, actions[0]), actions[1..]);
    }
  }
}
