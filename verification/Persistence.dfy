/** The stored nodes follow the tree: what a close returns is exactly what has to be written. */
module Persistence {
  import opened Wrappers
  import opened Versions
  import opened Tasks
  import opened TaskLists
  import opened Trees
  import opened StructureSync
  import opened Pointers
  import opened Transactions
  import opened Engine
  import opened Replication

  type Store = map<NodeKey, SerializedNode>

  function Apply(stored: Store, m: Mutation): Store {
    (stored - m.deleted) + m.updated
  }

  /** The tree as it should be stored: every node under the key it has there. */
  function Serialization(nodes: map<Path, Item>): (r: Store)
    ensures forall k :: k in r <==> k.path in nodes && KeyIn(nodes, k.path) == k && nodes[k.path].ser.Some?
    ensures forall k :: k in r ==> nodes[k.path].ser == Some(r[k])
  {
    map k | k in KeysIn(nodes, nodes.Keys) && nodes[k.path].ser.Some? :: nodes[k.path].ser.value
  }

  ghost predicate Clean(item: Item) {
    item.state == NeedDeserialize || item.state == Synced
  }

  function SideEffectsOf(item: Item): seq<Task> {
    if IsComponent(item) then item.ser.value.attrs.sideEffects else []
  }

  /** Nothing is left that the scan would hand out. */
  ghost predicate Scanned(tasks: seq<Task>) {
    Marked(tasks) == tasks
  }

  /** A node that is stored as it is and has nothing left to hand out. */
  ghost predicate Saved(stored: Store, s: State, k: NodeKey, item: Item) {
    k in stored && item.ser == Some(stored[k]) && k !in s.deleted && Scanned(SideEffectsOf(item))
  }

  ghost predicate LiveIn(entries: map<NodeKey, Entry>, k: NodeKey) {
    k in entries && entries[k].Live?
  }

  /**
    Whatever is stored: every node has a serialized form older than the open transaction, live notes
    are of nodes of the tree, and notes of dropped nodes do not stand for a clean node of the same
    version.
   */
  ghost predicate Steady(s: State, next: VT) {
    Less(ZERO, next) && forall k :: SteadyAt(s, next, k)
  }

  ghost predicate SteadyAt(s: State, next: VT, k: NodeKey) {
    && (InTree(s.root, k) ==> SteadyNode(ItemAt(s.root, k.path), next))
    && (LiveIn(s.updated, k) || LiveIn(s.system, k) ==> InTree(s.root, k))
    && (k in s.updated && s.updated[k].Stale? && InTree(s.root, k) ==> !Clean(ItemAt(s.root, k.path)))
    && (k in s.system && s.system[k].Stale? ==>
          && Less(s.system[k].ser.last, next)
          && (InTree(s.root, k) && Clean(ItemAt(s.root, k.path)) ==>
                ItemAt(s.root, k.path).ser.Some? && ItemAt(s.root, k.path).ser.value.last != s.system[k].ser.last))
  }

  ghost predicate SteadyNode(item: Item, next: VT) {
    item.ser.Some? && item.state != Undefined && Less(item.ser.value.last, next)
  }

  /**
    Within a transaction, moreover: every clean node is stored as it is or noted in a change set.
    Nothing is said of stored keys that have left the tree.
   */
  ghost predicate Tracks(stored: Store, s: State, next: VT) {
    Steady(s, next) && forall k :: TracksAt(stored, s, k)
  }

  ghost predicate TracksAt(stored: Store, s: State, k: NodeKey) {
    InTree(s.root, k) && Clean(ItemAt(s.root, k.path)) ==>
      LiveIn(s.updated, k) || LiveIn(s.system, k) || Saved(stored, s, k, ItemAt(s.root, k.path))
  }

  /** The facts about a node, by its path. */
  lemma SteadyPath(s: State, next: VT, p: Path)
    requires Steady(s, next) && Has(s.root, p)
    ensures SteadyNode(ItemAt(s.root, p), next)
  {
    hide SteadyNode, Has, FindNode;
    assert SteadyAt(s, next, KeyAt(s.root, p));
  }

  /** A node as it is after it was stored. */
  ghost predicate Storable(item: Item, next: VT) {
    SteadyNode(item, next) && Scanned(SideEffectsOf(item))
  }

  /** A tree that is stored as it is starts out tracked, without notes. */
  lemma StoredTreeIsTracked(t: Tree, next: VT)
    requires Less(ZERO, next) && forall p :: Has(t, p) ==> Storable(ItemAt(t, p), next)
    ensures Tracks(Serialization(Flat(t)), State(t, map[], {}, map[]), next)
  {
    hide Has, FindNode, Serialization, KeyAt, KeyIn;
    var s := State(t, map[], {}, map[]);
    forall k ensures SteadyAt(s, next, k) && TracksAt(Serialization(Flat(t)), s, k) {
      KeyInFlat(t, k.path);
      if Has(t, k.path) {
        assert Flat(t)[k.path] == ItemAt(t, k.path);
        assert Storable(ItemAt(t, k.path), next);
      }
    }
  }

  /** The object a note was made for is no longer in the tree, or about to leave it. */
  ghost predicate Loose(s: State, k: NodeKey, e: Entry) {
    e.Stale? || Leaves(s.root, k.path)
  }

  /**
    What the tree shows before it is closed: no stored key is lost unreported, be it by an earlier
    synchronisation of the transaction or by the one the close begins with, no note
    of a refreshed node has lost its node (unless the node now at that key gets the pure timer and
    so a new note), and no noted replicated node is about to vanish.
   */
  ghost predicate Consistent(stored: Store, s: State, next: VT, timerAt: Option<NodeKey>) {
    && OrphansReported(stored, s, next)
    && (forall k :: k in s.system && Loose(s, k, s.system[k]) ==> timerAt == Some(k))
    && UpdatesStay(s, next)
  }

  /** A stored key that the tree will not have, and that nothing reports. */
  ghost predicate Lost(stored: Store, s: State, next: VT, k: NodeKey) {
    && k in stored && !InTree(SyncSubComponents(s.root, next), k)
    && k !in s.deleted && k !in Deleted(s.root)
  }

  ghost predicate OrphansReported(stored: Store, s: State, next: VT) {
    forall k :: !Lost(stored, s, next, k)
  }

  ghost predicate UpdatesStay(s: State, next: VT) {
    forall k :: k in s.updated && Loose(s, k, s.updated[k]) ==> InTree(SyncSubComponents(s.root, next), k)
  }

  // ------------------------------------------------- one node through a close

  ghost function TimerPath(run: Run): Option<Path> {
    if run.timer then run.first else None
  }

  ghost function TimerKey(run: Run): Option<NodeKey> {
    if run.timer && run.first.Some? then Some(KeyAt(run.resolved, run.first.value)) else None
  }

  ghost predicate TimerAt(run: Run, p: Path) {
    TimerPath(run) == Some(p)
  }

  /** Older than the transaction, not dirty, and with nothing left to hand out. */
  ghost predicate Untouched(item: Item, next: VT) {
    && item.ser.Some? && item.state != NeedSerialize && Less(item.ser.value.last, next)
    && Scanned(SideEffectsOf(item))
  }

  lemma SerializedFacts(item: Item, p: Path, next: VT)
    requires item.ser.Some? && Ready(item, p, next)
    ensures Serialized(item, next).ser.Some?
    ensures item.state == NeedSerialize ==>
      && Serialized(item, next).ser.value.last == next && Serialized(item, next).state == Synced
      && Serialized(item, next).ser.value.initial == item.ser.value.initial
    ensures item.state != NeedSerialize ==> Serialized(item, next) == item
  {
  }

  lemma ClosedFacts(item: Item, c: Closing, offset: int)
    requires item.ser.Some?
    ensures ClosedItem(item, c, offset).ser.Some?
    ensures ClosedItem(item, c, offset).ser.value.last == item.ser.value.last
    ensures ClosedItem(item, c, offset).state == item.state
    ensures Less(item.ser.value.last, c.next) && Scanned(SideEffectsOf(item)) ==> ClosedItem(item, c, offset) == item
  {
  }

  /** A node of the synchronised tree, from there to the end of the close. */
  lemma FinalAt(s: State, c: Closing, run: Run, p: Path)
    requires GoodRun(s, c, run) && Has(SyncSubComponents(s.root, c.next), p)
    requires ItemAt(SyncSubComponents(s.root, c.next), p).ser.Some?
    ensures var item, nodes := ItemAt(SyncSubComponents(s.root, c.next), p), FinalNodes(run, c);
      && p in nodes && nodes[p].ser.Some?
      && (p in Dirty(Flat(run.resolved)) <==> item.state == NeedSerialize)
      && (item.state == NeedSerialize ==> nodes[p].ser.value.last == c.next)
      && (Untouched(item, c.next) && !TimerAt(run, p) ==> nodes[p].ser == item.ser)
  {
    hide SyncSubComponents, GoodRun, FinalNodes, Serialized, ClosedItem, Has, FindNode, Ready, Less, Scanned, Dirty,
         Flat, TimerAt, Compare;
    RunPaths(s, c, run, p);
    var item := ItemAt(run.resolved, p);
    SerializedFacts(item, p, c.next);
    ClosedFacts(Serialized(item, c.next), c, run.offsets[p]);
    FinalItem(run, c, p);
  }

  /** The resolved tree has the nodes of the synchronised one, up to in-memory values. */
  lemma RunPaths(s: State, c: Closing, run: Run, p: Path)
    requires GoodRun(s, c, run)
    ensures p in FinalNodes(run, c) <==> Has(SyncSubComponents(s.root, c.next), p)
    ensures Has(run.resolved, p) <==> Has(SyncSubComponents(s.root, c.next), p)
    ensures p in Dirty(Flat(run.resolved)) ==> Has(run.resolved, p)
    ensures Has(run.resolved, p) ==>
      var before, after := ItemAt(SyncSubComponents(s.root, c.next), p), ItemAt(run.resolved, p);
      && p in run.offsets
      && after.ser == before.ser && after.state == before.state && Ready(after, p, c.next)
      && (p in Dirty(Flat(run.resolved)) <==> after.state == NeedSerialize)
      && SideEffectsOf(after) == SideEffectsOf(before)
  {
    hide SyncSubComponents, Aligned, Has, FindNode, ResolvedItem, Ready, Handled, First, OfNode, Timers, Deleted,
         Settled;
    var t1 := SyncSubComponents(s.root, c.next);
    ResolvedAtPath(t1, run.resolved, p);
    OffsetsCover(c, run);
    if Has(run.resolved, p) {
      assert p in Flat(run.resolved);
    }
  }

  lemma ResolvedAtPath(t0: Tree, t: Tree, p: Path)
    requires Resolved(t0, t, {})
    ensures Has(t, p) <==> Has(t0, p)
    ensures Has(t, p) ==> ItemAt(t, p).ser == ItemAt(t0, p).ser && ItemAt(t, p).state == ItemAt(t0, p).state
  {
    assert Has(t, p) ==> ResolvedItem(t0, p, ItemAt(t, p), {});
  }

  lemma OffsetsCover(c: Closing, run: Run)
    requires Handled(c, run)
    ensures run.offsets.Keys == Paths(run.resolved) == FinalNodes(run, c).Keys
  {
  }

  lemma FinalItem(run: Run, c: Closing, p: Path)
    requires Has(run.resolved, p) && p in run.offsets
    ensures var closed := ClosedItem(Serialized(ItemAt(run.resolved, p), c.next), c, run.offsets[p]);
      && p in FinalNodes(run, c)
      && (closed.ser.Some? ==>
            FinalNodes(run, c)[p].ser.Some? && FinalNodes(run, c)[p].ser.value.last == closed.ser.value.last)
      && (!TimerAt(run, p) ==> FinalNodes(run, c)[p] == closed)
  {
    hide ClosedItem, Serialized, Has, FindNode;
  }

  /** Closing keeps the kind of every node, so the final nodes have the keys of the synchronised ones. */
  lemma FinalKind(s: State, c: Closing, run: Run, p: Path)
    requires GoodRun(s, c, run) && Has(run.resolved, p)
    ensures p in FinalNodes(run, c)
    ensures CollectionNode(FinalNodes(run, c)[p]) <==> CollectionNode(ItemAt(run.resolved, p))
    ensures Has(SyncSubComponents(s.root, c.next), p)
    ensures CollectionNode(ItemAt(run.resolved, p)) <==> CollectionNode(ItemAt(SyncSubComponents(s.root, c.next), p))
  {
    hide SyncSubComponents, GoodRun, Serialized, ClosedItem, Has, FindNode, Ready, Dirty;
    RunPaths(s, c, run, p);
    var item := ItemAt(run.resolved, p);
    SerializedKind(item, c.next);
    ClosedKind(Serialized(item, c.next), c, run.offsets[p]);
    assert p in Flat(run.resolved) && Flat(run.resolved)[p] == item;
  }

  lemma ClosedKind(item: Item, c: Closing, offset: int)
    ensures CollectionNode(ClosedItem(item, c, offset)) <==> CollectionNode(item)
    ensures PuresOf(item) != [] ==> !CollectionNode(item) && !CollectionNode(MarkFirstPure(item))
  {
    hide TaskedAttributes, Marked;
  }

  lemma RunKeys(s: State, c: Closing, run: Run, p: Path)
    requires GoodRun(s, c, run)
    ensures KeyIn(FinalNodes(run, c), p) == KeyAt(run.resolved, p) == KeyAt(SyncSubComponents(s.root, c.next), p)
    ensures KeyIn(Flat(run.resolved), p) == KeyAt(run.resolved, p)
  {
    hide SyncSubComponents, GoodRun, FinalNodes, Has, FindNode, Flat;
    KeyInFlat(run.resolved, p);
    if |p| > 1 {
      var q := p[..|p| - 1];
      RunPaths(s, c, run, q);
      if Has(run.resolved, q) {
        FinalKind(s, c, run, q);
      }
    }
  }

  /** The keys that serialization notes. */
  lemma DirtyKey(s: State, c: Closing, run: Run, k: NodeKey)
    requires GoodRun(s, c, run)
    ensures var t1, nodes := SyncSubComponents(s.root, c.next), Flat(run.resolved);
      && (k in KeysIn(nodes, Dirty(nodes)) <==> InTree(t1, k) && ItemAt(t1, k.path).state == NeedSerialize)
      && (k in Serialization(FinalNodes(run, c)) ==> InTree(t1, k))
      && (InTree(t1, k) ==> k.path in FinalNodes(run, c) && KeyIn(FinalNodes(run, c), k.path) == k)
      && (TimerKey(run) == Some(k) ==> InTree(t1, k) && TimerAt(run, k.path) && KeyIn(nodes, run.first.value) == k)
      && (TimerKey(run) != Some(k) && InTree(t1, k) ==> !TimerAt(run, k.path))
  {
    hide SyncSubComponents, GoodRun, FinalNodes, Has, FindNode, Flat, KeyAt, KeyIn, KeysIn, Serialization;
    RunPaths(s, c, run, k.path);
    RunKeys(s, c, run, k.path);
    if TimerKey(run) == Some(k) {
      RunKeys(s, c, run, run.first.value);
      TimerIn(s, c, run, run.first.value);
    }
  }

  /** The change set holds the node's own serialized form, if the tree has the node. */
  ghost predicate SharedAt(u: Store, nodes: map<Path, Item>, k: NodeKey) {
    && (k in u <==> k.path in nodes && nodes[k.path].ser.Some?)
    && (k in u && k.path in nodes ==> nodes[k.path].ser == Some(u[k]))
  }

  /** What a note comes to: the node's own form, or the form its object had when it was dropped. */
  ghost predicate NotedAt(s: State, u: Store, nodes: map<Path, Item>, k: NodeKey, e: Entry) {
    if e.Stale? then k in u && u[k] == e.ser
    else if Leaves(s.root, k.path) then k in u && ItemAt(s.root, k.path).ser == Some(u[k])
    else SharedAt(u, nodes, k)
  }

  /** The entry a key ends up with, and where it comes from. */
  lemma EntryAt(s: State, c: Closing, run: Run, k: NodeKey)
    requires Steady(s, c.next) && GoodRun(s, c, run)
    ensures var u, nodes, dirty := ReturnedMutation(s, c, run).updated, FinalNodes(run, c),
                                   KeysIn(Flat(run.resolved), Dirty(Flat(run.resolved)));
      if TimerKey(run) == Some(k) || (k !in s.system && k in dirty) then SharedAt(u, nodes, k)
      else if k in s.system then NotedAt(s, u, nodes, k, s.system[k])
      else if k in s.updated then NotedAt(s, u, nodes, k, s.updated[k])
      else k !in u
  {
    hide GoodRun, FinalNodes, Flat, Dirty, Has, FindNode, Where, Deleted, KeysIn, KeyIn, KeyAt, Detach, AllLive,
         Materialize, SteadyNode;
    var nodes, flat := FinalNodes(run, c), Flat(run.resolved);
    var dirty := KeysIn(flat, Dirty(flat));
    var updated, system := AllLive(Detach(s.updated, s.root), dirty), Detach(s.system, s.root);
    var system' := if run.timer && run.first.Some? then system[KeyIn(flat, run.first.value) := Live] else system;
    if run.timer && run.first.Some? {
      RunKeys(s, c, run, run.first.value);
    }
    MaterializedAt(updated + system', nodes, k);
    DetachedAt(s, c.next, s.updated, k);
    DetachedAt(s, c.next, s.system, k);
    LiveAt(Detach(s.updated, s.root), dirty, k);
  }

  lemma MaterializedAt(entries: map<NodeKey, Entry>, nodes: map<Path, Item>, k: NodeKey)
    ensures var u := Materialize(entries, nodes);
      if k !in entries then k !in u
      else if entries[k].Live? then SharedAt(u, nodes, k)
      else k in u && u[k] == entries[k].ser
  {
  }

  lemma LiveAt(entries: map<NodeKey, Entry>, s: set<NodeKey>, k: NodeKey)
    ensures k in AllLive(entries, s) <==> k in entries || k in s
    ensures k in entries || k in s ==> AllLive(entries, s)[k] == if k in s then Live else entries[k]
  {
  }

  lemma DetachedAt(s: State, next: VT, entries: map<NodeKey, Entry>, k: NodeKey)
    requires Steady(s, next) && (entries == s.updated || entries == s.system)
    ensures k in Detach(entries, s.root) <==> k in entries
    ensures k in entries ==>
      var e := Detach(entries, s.root)[k];
      if entries[k].Stale? then e == entries[k]
      else if Leaves(s.root, k.path) then e.Stale? && ItemAt(s.root, k.path).ser == Some(e.ser)
      else e == Live
  {
    hide Has, FindNode, Where;
    assert SteadyAt(s, next, k);
  }

  /** What the synchronised tree says about a key, and what it reports. */
  lemma SyncedAt(s: State, next: VT, k: NodeKey)
    requires Steady(s, next)
    ensures var t1 := SyncSubComponents(s.root, next);
      && (InTree(t1, k) ==> ItemAt(t1, k.path).ser.Some? && k !in Deleted(s.root))
      && (InTree(t1, k) && ItemAt(t1, k.path).state !in {NeedSerialize, NeedSyncStructure} ==>
            && InTree(s.root, k) && !Leaves(s.root, k.path)
            && ItemAt(t1, k.path).ser == ItemAt(s.root, k.path).ser && Clean(ItemAt(s.root, k.path)))
      && (InTree(t1, k) && Leaves(s.root, k.path) ==> ItemAt(t1, k.path).state == NeedSerialize)
      && (InTree(s.root, k) && !Leaves(s.root, k.path) ==> InTree(t1, k))
      && (InTree(t1, k) && InTree(s.root, k) && !Clean(ItemAt(s.root, k.path)) ==>
            ItemAt(t1, k.path).state == NeedSerialize || ItemAt(t1, k.path).state == NeedSyncStructure)
      && (!InTree(t1, k) && InTree(s.root, k) ==> (k in Deleted(s.root) <==> k !in Orphans(s.root, next)))
  {
    hide SyncSubComponents, Has, FindNode, Where, Deleted, Orphans;
    SyncPath(s.root, next, k.path);
    DeletionsAreReported(s.root, next, k);
    if Has(s.root, k.path) {
      SteadyPath(s, next, k.path);
      if Stays(Where(s.root, k.path)) {
        KeyStays(s.root, next, k.path);
      }
    }
  }

  ghost predicate Agrees(stored: Store, s: State, c: Closing, run: Run, k: NodeKey) {
    var after, want := Apply(stored, ReturnedMutation(s, c, run)), Serialization(FinalNodes(run, c));
    (k in after <==> k in want) && (k in after && k in want ==> after[k] == want[k])
  }

  /** A node of the new tree is stored as it is, unless a note of a refreshed node gets there first. */
  lemma AgreesInTree(stored: Store, s: State, c: Closing, run: Run, k: NodeKey)
    requires Tracks(stored, s, c.next) && GoodRun(s, c, run) && InTree(SyncSubComponents(s.root, c.next), k)
    requires k in s.system && Loose(s, k, s.system[k]) ==> TimerKey(run) == Some(k)
    ensures Agrees(stored, s, c, run, k)
  {
    hide SyncSubComponents, GoodRun, FinalNodes, Has, FindNode, Where, Deleted, Orphans, Leaves, Flat, Dirty,
         Materialize, AllLive, Detach, Compare, Scanned, KeysIn, KeyIn, KeyAt;
    assert SteadyAt(s, c.next, k) && TracksAt(stored, s, k);
    SyncedAt(s, c.next, k);
    EntryAt(s, c, run, k);
    DirtyKey(s, c, run, k);
    FinalAt(s, c, run, k.path);
    SettledAt(s, c, run, k.path);
  }

  /** A key the new tree does not have is not stored, if nothing notes it and it is not lost. */
  lemma AgreesOutside(stored: Store, s: State, c: Closing, run: Run, k: NodeKey)
    requires Steady(s, c.next) && GoodRun(s, c, run) && Consistent(stored, s, c.next, TimerKey(run))
    requires !InTree(SyncSubComponents(s.root, c.next), k)
    ensures Agrees(stored, s, c, run, k)
  {
    hide SyncSubComponents, GoodRun, FinalNodes, Has, FindNode, Where, Deleted, Orphans, Leaves, Flat, Dirty,
         Materialize, AllLive, Detach, Compare, Scanned, KeysIn, KeyIn, KeyAt;
    assert SteadyAt(s, c.next, k) && !Lost(stored, s, c.next, k);
    SyncedAt(s, c.next, k);
    EntryAt(s, c, run, k);
    DirtyKey(s, c, run, k);
  }

  lemma TimerIn(s: State, c: Closing, run: Run, p: Path)
    requires GoodRun(s, c, run) && TimerAt(run, p)
    ensures p in FinalNodes(run, c)
  {
  }

  lemma SettledAt(s: State, c: Closing, run: Run, p: Path)
    requires GoodRun(s, c, run) && Has(SyncSubComponents(s.root, c.next), p)
    ensures ItemAt(SyncSubComponents(s.root, c.next), p).state != NeedSyncStructure
  {
  }

  lemma DisagreesWhenNot(stored: Store, s: State, c: Closing, run: Run)
    requires Steady(s, c.next) && GoodRun(s, c, run) && !Consistent(stored, s, c.next, TimerKey(run))
    ensures exists k :: !Agrees(stored, s, c, run, k)
  {
    hide SyncSubComponents, GoodRun, FinalNodes, Has, FindNode, Where, Deleted, Orphans, Leaves, Flat, Dirty,
         Materialize, AllLive, Detach, Scanned, Agrees, InTree;
    var k :|
      || Lost(stored, s, c.next, k)
      || (k in s.system && Loose(s, k, s.system[k]) && TimerKey(run) != Some(k))
      || (k in s.updated && Loose(s, k, s.updated[k]) && !InTree(SyncSubComponents(s.root, c.next), k));
    if Lost(stored, s, c.next, k) {
      OrphanStaysStored(stored, s, c, run, k);
    } else {
      LooseNoteIsWritten(stored, s, c, run, k);
    }
  }

  /** What goes wrong otherwise: an orphaned key stays stored though the tree has lost it. */
  lemma OrphanStaysStored(stored: Store, s: State, c: Closing, run: Run, k: NodeKey)
    requires GoodRun(s, c, run)
    requires Lost(stored, s, c.next, k)
    ensures k in Apply(stored, ReturnedMutation(s, c, run)) && k !in Serialization(FinalNodes(run, c))
    ensures !Agrees(stored, s, c, run, k)
  {
    hide SyncSubComponents, GoodRun, FinalNodes, Has, FindNode, Where, Deleted, Orphans, Leaves, Flat, Dirty,
         Materialize, AllLive, Detach, Scanned, KeyAt, KeyIn, KeysIn;
    DirtyKey(s, c, run, k);
  }

  /** What the last synchronisation orphans is lost, unless an earlier one reported the key. */
  lemma OrphanIsLost(stored: Store, s: State, next: VT, k: NodeKey)
    requires k in Orphans(s.root, next) && k in stored && k !in s.deleted
    ensures Lost(stored, s, next, k)
  {
    hide SyncSubComponents, Has, FindNode, Where, Deleted, Orphans, KeyAt;
    DeletionsAreReported(s.root, next, k);
  }

  /** Or a note writes the form its object had, although the tree holds another node there, or none. */
  lemma LooseNoteIsWritten(stored: Store, s: State, c: Closing, run: Run, k: NodeKey)
    requires Steady(s, c.next) && GoodRun(s, c, run)
    requires
      || (k in s.system && Loose(s, k, s.system[k]) && TimerKey(run) != Some(k))
      || (k in s.updated && Loose(s, k, s.updated[k]) && !InTree(SyncSubComponents(s.root, c.next), k))
    ensures !Agrees(stored, s, c, run, k)
  {
    hide SyncSubComponents, GoodRun, FinalNodes, Has, FindNode, Where, Deleted, Orphans, Flat, Dirty, Materialize,
         AllLive, Detach, Scanned, KeyAt, KeyIn, KeysIn;
    var t1 := SyncSubComponents(s.root, c.next);
    assert SteadyAt(s, c.next, k);
    SyncedAt(s, c.next, k);
    EntryAt(s, c, run, k);
    DirtyKey(s, c, run, k);
    if InTree(t1, k) {
      FinalAt(s, c, run, k.path);
      SettledAt(s, c, run, k.path);
      FinalVersion(s, c, run, k.path);
      if InTree(s.root, k) {
        SteadyPath(s, c.next, k.path);
      }
    }
  }

  /** The version a node ends up with: the new one if it is dirty, else the one it had. */
  lemma FinalVersion(s: State, c: Closing, run: Run, p: Path)
    requires Steady(s, c.next) && GoodRun(s, c, run) && Has(SyncSubComponents(s.root, c.next), p)
    requires ItemAt(SyncSubComponents(s.root, c.next), p).ser.Some?
    ensures var item := ItemAt(SyncSubComponents(s.root, c.next), p);
      && p in FinalNodes(run, c) && FinalNodes(run, c)[p].ser.Some?
      && FinalNodes(run, c)[p].ser.value.last == if item.state == NeedSerialize then c.next else item.ser.value.last
  {
    hide SyncSubComponents, GoodRun, FinalNodes, Serialized, ClosedItem, Has, FindNode, Ready, Dirty, Flat, TimerAt,
         Compare;
    RunPaths(s, c, run, p);
    var item := ItemAt(run.resolved, p);
    SerializedFacts(item, p, c.next);
    ClosedFacts(Serialized(item, c.next), c, run.offsets[p]);
    FinalItem(run, c, p);
  }

  /**
    Persistence agreement: removing the deleted keys and writing the updated nodes turns the old
    stored nodes into exactly the new tree, if and only if the tree was consistent before.
   */
  lemma PersistenceAgreement(stored: Store, s: State, c: Closing, run: Run)
    requires Tracks(stored, s, c.next) && GoodRun(s, c, run)
    ensures Apply(stored, ReturnedMutation(s, c, run)) == Serialization(FinalNodes(run, c))
      <==> Consistent(stored, s, c.next, TimerKey(run))
  {
    hide Steady, TracksAt, GoodRun, OrphansReported, UpdatesStay, Loose, ReturnedMutation, FinalNodes, Apply,
         Serialization, InTree, SyncSubComponents;
    var after, want := Apply(stored, ReturnedMutation(s, c, run)), Serialization(FinalNodes(run, c));
    if Consistent(stored, s, c.next, TimerKey(run)) {
      forall k ensures (k in after <==> k in want) && (k in after && k in want ==> after[k] == want[k]) {
        if InTree(SyncSubComponents(s.root, c.next), k) {
          AgreesInTree(stored, s, c, run, k);
        } else {
          AgreesOutside(stored, s, c, run, k);
        }
      }
      assert after.Keys == want.Keys;
    } else {
      DisagreesWhenNot(stored, s, c, run);
    }
  }

  /** The same on the state alone, where no note of a refreshed node has lost its node. */
  lemma AgreementOnTheState(stored: Store, s: State, c: Closing, run: Run)
    requires Tracks(stored, s, c.next) && GoodRun(s, c, run)
    requires forall k :: k in s.system ==> !Loose(s, k, s.system[k])
    ensures Apply(stored, ReturnedMutation(s, c, run)) == Serialization(FinalNodes(run, c))
      <==> OrphansReported(stored, s, c.next) && UpdatesStay(s, c.next)
  {
    hide Tracks, GoodRun, ReturnedMutation, FinalNodes, Apply, Serialization, Loose, OrphansReported, UpdatesStay;
    PersistenceAgreement(stored, s, c, run);
  }

  /** Everything in the one is in the other, unchanged. */
  ghost predicate Includes(stored: Store, part: Store) {
    forall k :: k in part ==> k in stored && stored[k] == part[k]
  }

  /** No note of a refreshed node stands where the tree has another node. */
  ghost predicate NotesFit(s: State, next: VT, timerAt: Option<NodeKey>) {
    forall k :: k in s.system && Loose(s, k, s.system[k]) && InTree(SyncSubComponents(s.root, next), k) ==>
      timerAt == Some(k)
  }

  /** Lost keys do no harm to the tree: its own nodes are stored as they are if and only if the notes fit. */
  lemma NodesAreStoredIff(stored: Store, s: State, c: Closing, run: Run)
    requires Tracks(stored, s, c.next) && GoodRun(s, c, run)
    ensures Includes(Apply(stored, ReturnedMutation(s, c, run)), Serialization(FinalNodes(run, c)))
      <==> NotesFit(s, c.next, TimerKey(run))
  {
    hide Steady, TracksAt, GoodRun, ReturnedMutation, FinalNodes, Apply, Serialization, InTree, Loose,
         SyncSubComponents, KeysIn;
    var after, want := Apply(stored, ReturnedMutation(s, c, run)), Serialization(FinalNodes(run, c));
    if NotesFit(s, c.next, TimerKey(run)) {
      forall k | k in want ensures k in after && after[k] == want[k] {
        DirtyKey(s, c, run, k);
        AgreesInTree(stored, s, c, run, k);
      }
    } else {
      var k :| k in s.system && Loose(s, k, s.system[k]) && InTree(SyncSubComponents(s.root, c.next), k)
        && TimerKey(run) != Some(k);
      LooseNoteIsWritten(stored, s, c, run, k);
      TreeKeyIsWanted(s, c, run, k);
    }
  }

  lemma TreeKeyIsWanted(s: State, c: Closing, run: Run, k: NodeKey)
    requires Steady(s, c.next) && GoodRun(s, c, run) && InTree(SyncSubComponents(s.root, c.next), k)
    ensures k in Serialization(FinalNodes(run, c))
  {
    hide GoodRun, FinalNodes, SyncSubComponents, KeyAt, KeyIn, Has, FindNode, KeysIn, Flat, Dirty;
    DirtyKey(s, c, run, k);
    SyncedAt(s, c.next, k);
    FinalAt(s, c, run, k.path);
  }

  // ------------------------------------------- the two parts of a mutation

  /** A key reported as deleted that is not serialized anew and is noted all the same. */
  ghost predicate ReportedTwice(s: State, next: VT, timerAt: Option<NodeKey>, k: NodeKey) {
    && (k in s.deleted || k in Deleted(s.root))
    && !DirtyIn(SyncSubComponents(s.root, next), k)
    && (k in s.system || k in s.updated || timerAt == Some(k))
  }

  ghost predicate DirtyIn(t: Tree, k: NodeKey) {
    InTree(t, k) && ItemAt(t, k.path).state == NeedSerialize
  }

  /** The two parts of a mutation overlap exactly there. */
  lemma MutationOverlapIff(s: State, c: Closing, run: Run, k: NodeKey)
    requires Steady(s, c.next) && GoodRun(s, c, run)
    ensures var m := ReturnedMutation(s, c, run);
      k in m.updated && k in m.deleted <==> ReportedTwice(s, c.next, TimerKey(run), k)
  {
    hide SyncSubComponents, GoodRun, FinalNodes, Has, FindNode, Where, Deleted, Orphans, Leaves, Flat, Dirty,
         Materialize, AllLive, Detach, Compare, Scanned, KeyAt, KeyIn, KeysIn;
    var t1 := SyncSubComponents(s.root, c.next);
    assert SteadyAt(s, c.next, k);
    SyncedAt(s, c.next, k);
    EntryAt(s, c, run, k);
    DirtyKey(s, c, run, k);
    if InTree(t1, k) {
      FinalAt(s, c, run, k.path);
      SettledAt(s, c, run, k.path);
    }
  }

  /** In a consistent tree that is where replication deleted a node and put it back. */
  lemma ConsistentOverlapIff(stored: Store, s: State, c: Closing, run: Run, k: NodeKey)
    requires Tracks(stored, s, c.next) && GoodRun(s, c, run) && Consistent(stored, s, c.next, TimerKey(run))
    ensures var m, t1 := ReturnedMutation(s, c, run), SyncSubComponents(s.root, c.next);
      k in m.updated && k in m.deleted <==>
        k in s.deleted && InTree(t1, k) && ItemAt(t1, k.path).state != NeedSerialize
  {
    hide SyncSubComponents, GoodRun, FinalNodes, Has, FindNode, Where, Deleted, Orphans, Leaves, Flat, Dirty,
         ReturnedMutation, Scanned, KeyAt, KeyIn, KeysIn;
    assert SteadyAt(s, c.next, k) && TracksAt(stored, s, k);
    MutationOverlapIff(s, c, run, k);
    SyncedAt(s, c.next, k);
    DirtyKey(s, c, run, k);
    if InTree(SyncSubComponents(s.root, c.next), k) {
      SettledAt(s, c, run, k.path);
    }
  }

  /** A key noted as deleted that is in the tree again is dirty. */
  ghost predicate DeletedAreDirty(s: State) {
    forall k :: k in s.deleted && InTree(s.root, k) ==> !Clean(ItemAt(s.root, k.path))
  }

  /** A noted key that is deleted and not in the tree again. */
  ghost predicate DeletedWithNote(s: State, next: VT, k: NodeKey) {
    && (k in s.deleted || k in Deleted(s.root)) && !InTree(SyncSubComponents(s.root, next), k)
    && (k in s.system || k in s.updated)
  }

  /** Where nothing was put back, the parts overlap exactly at noted keys that are gone. */
  lemma DirtyOverlapIff(s: State, c: Closing, run: Run, k: NodeKey)
    requires Steady(s, c.next) && GoodRun(s, c, run) && DeletedAreDirty(s)
    ensures var m := ReturnedMutation(s, c, run);
      k in m.updated && k in m.deleted <==> DeletedWithNote(s, c.next, k)
  {
    hide SyncSubComponents, GoodRun, FinalNodes, Has, FindNode, Where, Deleted, Orphans, Leaves, Flat, Dirty,
         ReturnedMutation, KeyAt, KeyIn, KeysIn;
    MutationOverlapIff(s, c, run, k);
    SyncedAt(s, c.next, k);
    DirtyKey(s, c, run, k);
    if InTree(SyncSubComponents(s.root, c.next), k) {
      SettledAt(s, c, run, k.path);
    }
  }

  /** A consistent tree has no such key. */
  lemma ConsistentHasNone(stored: Store, s: State, c: Closing, run: Run, k: NodeKey)
    requires Steady(s, c.next) && GoodRun(s, c, run) && Consistent(stored, s, c.next, TimerKey(run))
    ensures !DeletedWithNote(s, c.next, k)
  {
    hide SyncSubComponents, GoodRun, FinalNodes, Has, FindNode, Where, Deleted, Orphans, Leaves, Flat, Dirty, KeyAt,
         KeyIn, KeysIn;
    assert SteadyAt(s, c.next, k);
    SyncedAt(s, c.next, k);
    DirtyKey(s, c, run, k);
  }

  // ------------------------------------------------------------ loading

  /** Stored nodes whose key has this path. */
  ghost predicate PlacedFrom(stored: Store, done: set<NodeKey>, q: Path, item: Item) {
    exists k :: k in done && k in stored && k.path == q && item == Item(Some(stored[k]), None, NeedDeserialize)
  }

  function PathsOf(keys: set<NodeKey>): (r: set<Path>)
    ensures forall p :: p in r <==> exists k :: k in keys && k.path == p
  {
    set k | k in keys :: k.path
  }

  ghost predicate LoadedAt(t: Tree, stored: Store, done: set<NodeKey>, q: Path) {
    && (Has(t, q) <==> q == [] || Covered(PathsOf(done), q))
    && (Has(t, q) ==>
          if q in PathsOf(done) then PlacedFrom(stored, done, q, ItemAt(t, q)) else ItemAt(t, q) == PLACEHOLDER)
  }

  ghost predicate Loaded(t: Tree, stored: Store, done: set<NodeKey>) {
    forall q :: LoadedAt(t, stored, done, q)
  }

  /** The root of a tree that has never been stored. */
  function EmptyRoot(next: VT): Item {
    Item(Some(SerializedNode(next, ZERO, ComponentAttributes("", [], []), "")), None, NeedDeserialize)
  }

  /** A tree from stored nodes, placed in any order; without any, a fresh component at the root. */
  method NewTree(stored: Store, next: VT) returns (t: Tree)
    ensures stored == map[] ==> t == Tree(EmptyRoot(next), map[])
    ensures stored != map[] ==> Loaded(t, stored, stored.Keys)
  {
    hide Loaded, SetSerialized;
    if stored == map[] {
      return Tree(EmptyRoot(next), map[]);
    }
    var todo := stored.Keys;
    t := Tree(PLACEHOLDER, map[]);
    LoadedStart(stored);
    assert stored.Keys - todo == {};
    while todo != {}
      invariant todo <= stored.Keys && Loaded(t, stored, stored.Keys - todo)
      decreases todo
    {
      var k :| k in todo;
      LoadedStep(t, stored, stored.Keys - todo, k);
      assert stored.Keys - todo + {k} == stored.Keys - (todo - {k});
      t := SetSerialized(t, k.path, stored[k]);
      todo := todo - {k};
    }
    assert stored.Keys - todo == stored.Keys;
  }

  lemma LoadedStart(stored: Store)
    ensures Loaded(Tree(PLACEHOLDER, map[]), stored, {})
  {
    forall q ensures LoadedAt(Tree(PLACEHOLDER, map[]), stored, {}, q) {
    }
  }

  lemma LoadedStep(t: Tree, stored: Store, done: set<NodeKey>, k: NodeKey)
    requires Loaded(t, stored, done) && k in stored && k !in done
    ensures Loaded(SetSerialized(t, k.path, stored[k]), stored, done + {k})
  {
    hide Loaded;
    forall q ensures LoadedAt(SetSerialized(t, k.path, stored[k]), stored, done + {k}, q) {
      LoadedStepAt(t, stored, done, k, q);
    }
    AllLoaded(SetSerialized(t, k.path, stored[k]), stored, done + {k});
  }

  lemma AllLoaded(t: Tree, stored: Store, done: set<NodeKey>)
    requires forall q :: LoadedAt(t, stored, done, q)
    ensures Loaded(t, stored, done)
  {
  }

  lemma LoadedStepAt(t: Tree, stored: Store, done: set<NodeKey>, k: NodeKey, q: Path)
    requires Loaded(t, stored, done) && k in stored && k !in done
    ensures LoadedAt(SetSerialized(t, k.path, stored[k]), stored, done + {k}, q)
  {
    hide Has, FindNode, SetSerialized, PathsOf;
    var p := k.path;
    assert LoadedAt(t, stored, done, q) && LoadedAt(t, stored, done, p);
    SetPath(t, p, stored[k], q);
    assert PathsOf(done + {k}) == PathsOf(done) + {p};
    assert Covered(PathsOf(done + {k}), q) <==> Covered(PathsOf(done), q) || q <= p by {
      if r :| r in PathsOf(done) && q <= r {
        assert r in PathsOf(done + {k});
      }
      if q <= p {
        assert p in PathsOf(done + {k});
      }
    }
    if q == p {
      assert PlacedFrom(stored, done + {k}, q, Item(Some(stored[k]), None, NeedDeserialize));
    } else if Has(t, q) && q in PathsOf(done) {
      var l :| l in done && l in stored && l.path == q && ItemAt(t, q) == Item(Some(stored[l]), None, NeedDeserialize);
      assert l in done + {k};
    }
  }

  /** One key per path, with every ancestor, and of the kind the parent says: what a tree is stored as. */
  ghost predicate WellKeyed(stored: Store) {
    && PrefixClosed(PathsOf(stored.Keys)) && [] in PathsOf(stored.Keys)
    && (forall k, l :: k in stored && l in stored && k.path == l.path ==> k == l)
    && (forall k :: k in stored ==> (k.item <==> |k.path| > 1 && InStoredCollection(stored, k.path)))
  }

  ghost predicate InStoredCollection(stored: Store, p: Path)
    requires p != []
  {
    exists l :: l in stored && l.path == p[..|p| - 1] && stored[l].attrs.CollectionAttributes?
  }

  /** Loading what a tree was stored as gives its nodes back. */
  lemma LoadUndoesStore(t: Tree, stored: Store)
    requires Loaded(t, stored, stored.Keys) && WellKeyed(stored)
    ensures Serialization(Flat(t)) == stored
  {
    hide Has, FindNode, Loaded, WellKeyed, KeyIn;
    forall k ensures (k in Serialization(Flat(t)) <==> k in stored)
      && (k in stored && k in Serialization(Flat(t)) ==> Serialization(Flat(t))[k] == stored[k])
    {
      LoadedKey(t, stored, k);
    }
  }

  /** A loaded node is the stored one of its path. */
  lemma LoadedNode(t: Tree, stored: Store, q: Path)
    requires Loaded(t, stored, stored.Keys) && WellKeyed(stored)
    ensures Has(t, q) <==> q in PathsOf(stored.Keys)
    ensures forall k :: k in stored && k.path == q ==> Has(t, q) && ItemAt(t, q).ser == Some(stored[k])
  {
    hide Has, FindNode, PathsOf;
    assert LoadedAt(t, stored, stored.Keys, q);
    if q in PathsOf(stored.Keys) {
      assert Covered(PathsOf(stored.Keys), q);
    }
    if r :| r in PathsOf(stored.Keys) && q <= r {
      PrefixIn(PathsOf(stored.Keys), r, q);
    }
  }

  lemma LoadedKey(t: Tree, stored: Store, k: NodeKey)
    requires Loaded(t, stored, stored.Keys) && WellKeyed(stored)
    ensures k in Serialization(Flat(t)) <==> k in stored
    ensures k in stored && k in Serialization(Flat(t)) ==> Serialization(Flat(t))[k] == stored[k]
  {
    hide Has, FindNode, Loaded, PathsOf;
    LoadedNode(t, stored, k.path);
    KeyInFlat(t, k.path);
    if Has(t, k.path) {
      var l :| l in stored && l.path == k.path;
      assert Flat(t)[k.path] == ItemAt(t, k.path);
      if |k.path| > 1 {
        LoadedNode(t, stored, k.path[..|k.path| - 1]);
        TreeIsPrefixClosed(t, k.path, |k.path| - 1);
        var m :| m in stored && m.path == k.path[..|k.path| - 1];
      }
    }
  }
}
