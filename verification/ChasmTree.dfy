/**
  The tree object that mutable state drives: its fields, the operations that change them, and what
  every operation keeps, so that they can follow one another.
 */
module ChasmTrees {
  import opened Wrappers
  import opened Versions
  import opened Tasks
  import opened TaskLists
  import opened Trees
  import opened StructureSync
  import opened Pointers
  import opened Transactions
  import opened Engine
  import opened Replication
  import opened Persistence
  import opened PureTimers
  import Tx = TransactionRuns

  // ------------------------------------------------ coherence, node by node

  /** What coherence reads of one node. */
  ghost predicate SameView(t: Tree, t': Tree, q: Path) {
    && (Has(t', q) <==> Has(t, q))
    && (Has(t, q) ==>
          var a, b := ItemAt(t, q), ItemAt(t', q);
          b.value == a.value && (PointerNode(a) <==> PointerNode(b)) && (Structural(a) <==> Structural(b)))
  }

  lemma SameViewBelow(t: Tree, t': Tree, p: Path)
    requires Has(t, p) && forall q :: SameView(t, t', q)
    ensures Has(t', p) && SameBelow(FindNode(t, p).value, FindNode(t', p).value)
  {
    hide Has, FindNode;
    assert SameView(t, t', p);
    var a, b := FindNode(t, p).value, FindNode(t', p).value;
    forall k ensures (k in a.kids <==> k in b.kids) && (k in a.kids && k in b.kids ==> SameKid(a.kids[k], b.kids[k])) {
      KidsAt(t, p, k);
      KidsAt(t', p, k);
      assert SameView(t, t', p + [k]);
      if k in a.kids && k in b.kids {
        SameViewKid(t, t', p + [k]);
      }
    }
  }

  lemma SameViewKid(t: Tree, t': Tree, p: Path)
    requires Has(t, p) && Has(t', p) && forall q :: SameView(t, t', q)
    ensures SameKid(FindNode(t, p).value, FindNode(t', p).value)
  {
    hide Has, FindNode;
    assert SameView(t, t', p);
    var a, b := FindNode(t, p).value, FindNode(t', p).value;
    forall k
      ensures k in a.kids <==> k in b.kids
      ensures k in a.kids && k in b.kids ==> (PointerNode(a.kids[k].item) <==> PointerNode(b.kids[k].item))
    {
      KidsAt(t, p, k);
      KidsAt(t', p, k);
      assert SameView(t, t', p + [k]);
    }
  }

  /** A walk that leaves what coherence reads leaves a coherent tree coherent. */
  lemma ViewsKeepCoherence(t: Tree, t': Tree)
    requires Coherent(t) && forall q :: SameView(t, t', q)
    ensures Coherent(t')
  {
    hide Has, FindNode, Coherent, NodeCoherent, SameBelow;
    forall p ensures CoherentAt(t', p) {
      assert SameView(t, t', p);
      if Has(t', p) {
        CoherentPath(t, p);
        SameViewBelow(t, t', p);
        StaysCoherent(FindNode(t, p).value, FindNode(t', p).value);
      }
    }
    CoherentFromPaths(t');
  }

  lemma ResetView(item: Item)
    ensures var r := ResetItem(item);
      r.value == item.value && (PointerNode(item) <==> PointerNode(r)) && (Structural(item) <==> Structural(r))
  {
  }

  lemma RefreshKeepsCoherence(s: State)
    requires Coherent(s.root)
    ensures Coherent(Tx.Refreshed(s).root)
  {
    hide Has, FindNode, Coherent, ResetItem, Tx.Refreshed, PointerNode, Structural;
    forall q ensures SameView(s.root, Tx.Refreshed(s).root, q) {
      Tx.RefreshedAt(s, q);
      if Has(s.root, q) {
        ResetView(ItemAt(s.root, q));
      }
    }
    ViewsKeepCoherence(s.root, Tx.Refreshed(s).root);
  }

  // ---------------------------------------------------- after a close

  lemma SettledNonEmpty(f: Field)
    ensures NonEmpty(SettleField(f)) <==> NonEmpty(f)
    ensures SettleField(f).SubMap? <==> f.SubMap?
    ensures f.SubMap? ==> SettleField(f) == f
  {
  }

  /** One field of a component after resolution: still what the children say. */
  lemma ResolvedKid(t0: Tree, t: Tree, p: Path, fields: map<Name, Field>, fields': map<Name, Field>, k: Name)
    requires Resolved(t0, t, {}) && Has(t0, p) && Has(t, p) && fields'.Keys == fields.Keys
    requires ItemAt(t0, p).value.Some? && ItemAt(t0, p).value.value.Component?
    requires ItemAt(t0, p).value.value.fields == fields
    requires k in fields ==> fields'[k] == fields[k] || fields'[k] == SettleField(fields[k])
    requires KidMatches(fields, FindNode(t0, p).value, k)
    ensures KidMatches(fields', FindNode(t, p).value, k)
  {
    hide Has, FindNode, NonEmpty, SettledFields, Holders;
    var a, b := FindNode(t0, p).value, FindNode(t, p).value;
    var q := p + [k];
    assert q[..|q| - 1] == p && q[|q| - 1] == k;
    KidsAt(t0, p, k);
    KidsAt(t, p, k);
    assert Has(t, q) <==> Has(t0, q);
    if k in fields {
      SettledNonEmpty(fields[k]);
    }
    if Has(t, q) {
      assert ResolvedItem(t0, q, ItemAt(t, q), {});
      if k in fields && fields[k].SubMap? {
        forall key ensures key in b.kids[k].kids <==> key in a.kids[k].kids {
          KidsAt(t0, q, key);
          KidsAt(t, q, key);
          assert Has(t, q + [key]) <==> Has(t0, q + [key]);
        }
      }
    }
  }

  lemma MatchesKid(fields: map<Name, Field>, t: Tree, k: Name)
    requires Matches(fields, t)
    ensures KidMatches(fields, t, k)
  {
    hide ItemsMatch;
  }

  lemma ResolvedNode(t0: Tree, t: Tree, p: Path)
    requires Resolved(t0, t, {}) && Coherent(t0) && Settled(t0)
    ensures CoherentAt(t, p)
  {
    hide Has, FindNode, Coherent, Matches, KidMatches, Holders, Settled;
    assert Has(t, p) <==> Has(t0, p);
    if Has(t, p) {
      assert ResolvedItem(t0, p, ItemAt(t, p), {});
      CoherentPath(t0, p);
      SettledHere(t0, p);
      var a, b := FindNode(t0, p).value, FindNode(t, p).value;
      if b.item.value.Some? && b.item.value.value.Component? {
        var fields, fields' := a.item.value.value.fields, b.item.value.value.fields;
        forall k ensures KidMatches(fields', b, k) {
          MatchesKid(fields, a, k);
          ResolvedKid(t0, t, p, fields, fields', k);
        }
        EachKidMatches(fields', b);
      }
    }
  }

  lemma SettledHere(t: Tree, p: Path)
    requires Settled(t) && Has(t, p)
    ensures ItemAt(t, p).state != NeedSyncStructure
  {
  }

  lemma ResolvedIsCoherent(t0: Tree, t: Tree)
    requires Resolved(t0, t, {}) && Aligned(t0) && Settled(t0)
    ensures Coherent(t)
  {
    hide Resolved, Aligned, Settled, CoherentAt, Coherent;
    AlignedIsCoherent(t0);
    forall p ensures CoherentAt(t, p) {
      ResolvedNode(t0, t, p);
    }
    CoherentFromPaths(t);
  }

  lemma SerializedView(item: Item, p: Path, next: VT)
    requires Ready(item, p, next)
    ensures var r := Serialized(item, next);
      && r.value == item.value && (PointerNode(item) <==> PointerNode(r))
      && !Structural(item) && r.state != NeedSyncStructure
  {
  }

  lemma ClosedView(item: Item, c: Closing, offset: int)
    ensures var r := ClosedItem(item, c, offset);
      r.value == item.value && (PointerNode(item) <==> PointerNode(r)) && r.state == item.state
    ensures PuresOf(item) != [] ==>
      var r := MarkFirstPure(item);
      r.value == item.value && (PointerNode(item) <==> PointerNode(r)) && r.state == item.state
  {
    hide TaskedAttributes, Marked;
  }

  /** A close gives every node of the resolved tree another serialized form at most. */
  lemma FinalView(s: State, c: Closing, run: Run, p: Path)
    requires GoodRun(s, c, run) && Has(run.resolved, p)
    ensures p in FinalNodes(run, c)
    ensures var a, b := ItemAt(run.resolved, p), FinalNodes(run, c)[p];
      b.value == a.value && (PointerNode(a) <==> PointerNode(b)) && !Structural(a) && b.state != NeedSyncStructure
  {
    hide SyncSubComponents, GoodRun, Serialized, ClosedItem, Has, FindNode, Ready, Dirty, Structural, PointerNode;
    RunPaths(s, c, run, p);
    var item := ItemAt(run.resolved, p);
    SerializedView(item, p, c.next);
    ClosedView(Serialized(item, c.next), c, run.offsets[p]);
    var closed := ClosedItem(Serialized(item, c.next), c, run.offsets[p]);
    ClosedView(closed, c, run.offsets[p]);
    assert p in Flat(run.resolved) && Flat(run.resolved)[p] == item;
  }

  /** After a close the children of every component in memory are again exactly its fields. */
  lemma ClosedIsAligned(s: State, c: Closing, run: Run, t: Tree)
    requires GoodRun(s, c, run) && Flat(t) == FinalNodes(run, c)
    ensures Aligned(t) && Coherent(t)
  {
    hide FinalNodes, Has, FindNode, Coherent, Aligned, Settled, Structural, PointerNode, Handled, Ready,
         SyncSubComponents;
    ResolvedIsCoherent(SyncSubComponents(s.root, c.next), run.resolved);
    Tx.FinalIsWhole(s, c, run);
    forall q ensures SameView(run.resolved, t, q) && (Has(t, q) ==> ItemAt(t, q).state != NeedSyncStructure) {
      assert q in Flat(t) <==> q in FinalNodes(run, c);
      if Has(run.resolved, q) {
        FinalView(s, c, run, q);
        assert Flat(t)[q] == ItemAt(t, q);
        NotStructural(ItemAt(t, q));
      }
    }
    ViewsKeepCoherence(run.resolved, t);
    SettledFrom(t);
    SettledIsAligned(t);
  }

  lemma NotStructural(item: Item)
    requires item.state != NeedSyncStructure
    ensures !Structural(item)
  {
  }

  lemma SettledFrom(t: Tree)
    requires forall q :: Has(t, q) ==> ItemAt(t, q).state != NeedSyncStructure
    ensures Settled(t)
  {
  }

  // ------------------------------------------------- after replication

  /** A component still in memory has the children it had. */
  ghost predicate Undisturbed(t: Tree, t': Tree, q: Path) {
    Has(t', q) && ItemAt(t', q).value.Some? ==>
      Has(t, q) && SameBelow(FindNode(t, q).value, FindNode(t', q).value)
  }

  lemma ReplicationKeepsCoherence(t: Tree, mid: Tree, t': Tree, d: set<Path>, u: Updates)
    requires Coherent(t) && Removed(t, mid, d) && Applied(mid, t', u, u.Keys)
    requires forall q :: Undisturbed(t, t', q)
    ensures Coherent(t')
  {
    hide Has, FindNode, Coherent, NodeCoherent, SameBelow, SameVersion, CarrySer, ResetSer;
    forall p ensures CoherentAt(t', p) {
      assert RemovedAt(t, mid, d, p) && AppliedAt(mid, t', u, u.Keys, p) && Undisturbed(t, t', p);
      if Has(t', p) {
        if ItemAt(t', p).value.Some? {
          CoherentPath(t, p);
          StaysCoherent(FindNode(t, p).value, FindNode(t', p).value);
        } else {
          NothingToMatch(FindNode(t', p).value);
        }
      }
    }
    CoherentFromPaths(t');
  }

  lemma NothingToMatch(t: Tree)
    requires t.item.value.None?
    ensures NodeCoherent(t)
  {
  }

  /** A tree just loaded has nothing in memory. */
  lemma LoadedIsCoherent(t: Tree)
    requires forall p :: Has(t, p) ==> ItemAt(t, p).value.None?
    ensures Coherent(t)
  {
    hide Has, FindNode, NodeCoherent, Coherent;
    forall p ensures CoherentAt(t, p) {
      if Has(t, p) {
        NothingToMatch(FindNode(t, p).value);
      }
    }
    CoherentFromPaths(t);
  }

  lemma DeliveryTimers(w: Tx.World, m: Tx.Delivery, log: seq<Physical>)
    requires TimerTree(w.s.root, log, w.next) && Tx.Delivers(w, m) && Tx.Sendable(w, Tx.Replicate(m))
    ensures TimerTree(m.end, log, w.next)
  {
    hide TimerTree, Removed, Applied, Deliverable, Tx.Orderly;
    ReplicationTimers(w.s.root, m.mid, m.end, m.deleted, m.updated, log, w.next);
  }

  lemma RefreshKeepsSorted(s: State)
    requires SortedTree(s.root)
    ensures SortedTree(Tx.Refreshed(s).root)
  {
    hide Has, FindNode, SortedNode, Tx.Refreshed, ResetItem, ResetSer;
    forall p | Has(Tx.Refreshed(s).root, p) && ItemAt(Tx.Refreshed(s).root, p).ser.Some?
      ensures SortedNode(ItemAt(Tx.Refreshed(s).root, p).ser.value)
    {
      Tx.RefreshedAt(s, p);
      ResetIsSer(ItemAt(s.root, p));
      ResetNodeSorted(ItemAt(s.root, p).ser.value);
    }
  }

  lemma RefreshKeepsDated(w: Tx.World)
    requires Dated(w.s.root, w.next)
    ensures Dated(Tx.Refreshed(w.s).root, w.next)
  {
    hide Dated, TimerTree, Tx.Refreshed, SortedTree;
    var log := LogOfTree(w.s.root, w.next);
    RefreshTimers(w, log);
    TimersAreDated(Tx.Refreshed(w.s).root, [], w.next);
  }

  lemma DeliveryKeepsDated(w: Tx.World, m: Tx.Delivery)
    requires Dated(w.s.root, w.next) && Tx.Delivers(w, m) && Tx.Sendable(w, Tx.Replicate(m))
    ensures Dated(m.end, w.next)
  {
    hide Dated, TimerTree, Tx.Delivers, Tx.Sendable, SortedTree;
    var log := LogOfTree(w.s.root, w.next);
    DeliveryTimers(w, m, log);
    TimersAreDated(m.end, log, w.next);
  }

  // -------------------------------------------------- where trees come from

  /** A stored node as closes leave it: older than the transaction, nothing to hand out, timers in the log. */
  ghost predicate WellStored(ser: SerializedNode, log: seq<Physical>, next: VT) {
    Less(ser.last, next) && Scanned(TasksOf(BySideEffect, ser)) && TimerNode(ser, log, next)
  }

  lemma LoadedItemAt(t: Tree, stored: Store, log: seq<Physical>, next: VT, p: Path)
    requires Loaded(t, stored, stored.Keys) && WellKeyed(stored) && Has(t, p)
    requires forall k :: k in stored ==> WellStored(stored[k], log, next)
    ensures var item := ItemAt(t, p);
      item.ser.Some? && item.value.None? && item.state == NeedDeserialize && WellStored(item.ser.value, log, next)
  {
    hide Has, FindNode, WellStored, WellKeyed;
    LoadedNode(t, stored, p);
    assert LoadedAt(t, stored, stored.Keys, p);
  }

  lemma WellStoredIsStorable(item: Item, log: seq<Physical>, next: VT)
    requires item.ser.Some? && item.state == NeedDeserialize && WellStored(item.ser.value, log, next)
    ensures Storable(item, next)
  {
    hide TimerNode;
    assert SideEffectsOf(item) == TasksOf(BySideEffect, item.ser.value);
  }

  /** A tree loaded from what closes stored can be worked on: tracked, with its timers, and coherent. */
  lemma LoadedTreeIsTracked(t: Tree, stored: Store, log: seq<Physical>, next: VT)
    requires Loaded(t, stored, stored.Keys) && WellKeyed(stored) && Less(ZERO, next)
    requires forall k :: k in stored ==> WellStored(stored[k], log, next)
    ensures Tracks(stored, State(t, map[], {}, map[]), next) && TimerTree(t, log, next) && Coherent(t)
  {
    hide Loaded, WellKeyed, WellStored, Has, FindNode, Steady, TracksAt, Coherent, TimerNode, Storable, Less;
    LoadUndoesStore(t, stored);
    forall p | Has(t, p)
      ensures Storable(ItemAt(t, p), next) && ItemAt(t, p).value.None? && TimedAt(t, log, next, p)
    {
      LoadedItemAt(t, stored, log, next, p);
      WellStoredIsStorable(ItemAt(t, p), log, next);
      StoredTimers(ItemAt(t, p).ser.value, log, next);
    }
    StoredTreeIsTracked(t, next);
    LoadedIsCoherent(t);
  }

  lemma StoredTimers(ser: SerializedNode, log: seq<Physical>, next: VT)
    requires WellStored(ser, log, next)
    ensures TimerNode(ser, log, next)
  {
  }

  /** A new tree whose root has been given a component. */
  function FreshTree(v: Value, next: VT): Tree {
    Tree(EmptyRoot(next).(value := Some(v), state := NeedSyncStructure), map[])
  }

  lemma FreshTreeIsTracked(v: Value, next: VT)
    requires v.Component? && NewValue(v) && Less(ZERO, next)
    ensures var t := FreshTree(v, next);
      Tracks(map[], State(t, map[], {}, map[]), next) && TimerTree(t, [], next) && Coherent(t)
  {
    var t := FreshTree(v, next);
    forall p ensures (Has(t, p) <==> p == []) && TimedAt(t, [], next, p) {
      EmptyLists(t.item.ser.value, next);
    }
    forall k ensures var s := State(t, map[], {}, map[]); SteadyAt(s, next, k) && TracksAt(map[], s, k) {
      FreshNode(v, next, k);
    }
    forall k | k in v.fields ensures FieldBacked(v.fields[k], k, t) {
      assert NewField(v.fields[k]);
    }
  }

  lemma FreshNode(v: Value, next: VT, k: NodeKey)
    requires v.Component? && Less(ZERO, next)
    ensures var s := State(FreshTree(v, next), map[], {}, map[]); SteadyAt(s, next, k) && TracksAt(map[], s, k)
  {
    hide KeyAt;
  }

  lemma EmptyLists(ser: SerializedNode, next: VT)
    requires ser.attrs.ComponentAttributes? && ser.attrs.sideEffects == [] && ser.attrs.pures == []
    ensures TimerNode(ser, [], next)
  {
    assert forall o :: TasksOf(o, ser) == [];
  }

  /**
    What a close comes to for the world before and after it, with the physical tasks handed out by then.
    It keeps the tree steady, its lists in order and its timers out. The tree is tracked again if and only
    if its nodes are stored as they are, for a tracked tree if and only if the notes fit; and storage is
    exactly the tree if and only if that was consistent.
   */
  ghost predicate ClosedWell(
    w: Tx.World, log: seq<Physical>, timerAt: Option<NodeKey>, w': Tx.World, log': seq<Physical>)
  {
    var want := Serialization(Flat(w'.s.root));
    && Steady(w'.s, w'.next)
    && (Dated(w.s.root, w.next) ==> Dated(w'.s.root, w'.next) && SortedTree(w'.s.root))
    && (TimerTree(w.s.root, log, w.next) ==> TimerTree(w'.s.root, log', w'.next))
    && (Tracks(w'.stored, w'.s, w'.next) <==> Includes(w'.stored, want))
    && (Tracks(w.stored, w.s, w.next) ==>
          && (Tracks(w'.stored, w'.s, w'.next) <==> NotesFit(w.s, w.next, timerAt))
          && (w'.stored == want <==> Consistent(w.stored, w.s, w.next, timerAt)))
  }

  class ChasmTree {
    var root: Tree
    var updated: map<NodeKey, Entry>
    var deleted: set<NodeKey>
    var system: map<NodeKey, Entry>
    var newTasks: map<nat, seq<NewTask>>
    var physical: seq<Physical>
    var cache: set<nat>
    const validate: TreeValidator

    /**
      What storage holds, the transition the backend will give the open transaction, and the physical
      tasks handed out since the last refresh, in earlier lives of the tree too.
     */
    ghost var stored: Store
    ghost var next: VT
    ghost var log: seq<Physical>

    function View(): State
      reads this
    {
      State(root, updated, deleted, system)
    }

    /** Nodes are filled in and older than the open transaction, and notes are of what they should be. */
    ghost predicate IsSteady()
      reads this
    {
      Steady(View(), next)
    }

    /** The change sets account for what is to be written. */
    ghost predicate Tracked()
      reads this
    {
      Tracks(stored, View(), next)
    }

    /** Every created pure task has its timer. */
    ghost predicate Timed()
      reads this
    {
      TimerTree(root, log, next)
    }

    constructor (root: Tree, validate: TreeValidator, ghost stored: Store, ghost next: VT, ghost log: seq<Physical>)
      ensures View() == State(root, map[], {}, map[]) && newTasks == map[] && physical == []
      ensures this.validate == validate && this.stored == stored && this.next == next && this.log == log
    {
      this.root, this.validate, this.stored, this.next, this.log := root, validate, stored, next, log;
      updated, deleted, system, newTasks, physical, cache := map[], {}, map[], map[], [], {};
    }

    method ApplyMutation(d: set<Path>, u: Updates, items: set<Path>) returns (ghost m: Tx.Delivery)
      requires SortedTree(root) && forall p :: p in u ==> SortedNode(u[p])
      modifies this`root, this`updated, this`deleted, this`system, this`cache
      ensures m == Tx.Delivery(d, u, items, m.mid, root) && View() == Tx.Delivered(old(View()), m)
      ensures Removed(old(root), m.mid, d) && Applied(m.mid, root, u, u.Keys)
      ensures SortedTree(root)
      ensures old(Coherent(root)) && (forall q :: Undisturbed(old(root), root, q)) ==> Coherent(root)
      ensures var w := Tx.World(stored, old(View()), next);
        Tx.Delivers(w, m) ==>
          && (old(IsSteady()) ==> IsSteady()) && (old(Tracked()) ==> Tracked())
          && (Tx.Sendable(w, Tx.Replicate(m)) ==>
                (old(Timed()) ==> Timed()) && (old(Dated(root, next)) ==> Dated(root, next)))
    {
      hide Removed, Applied, SortedTree, SortedNode, AllBelow, LetGo, AllLive, Changed, KeysFor, Detached, Steady,
           TracksAt, TimerTree, Coherent, Tx.Delivers, Tx.Sendable, Undisturbed, Dated;
      ghost var before := View();
      var gone := Detached(root, d);
      updated, system := LetGo(updated, root, gone), LetGo(system, root, gone);
      root, deleted := ApplyDeletions(root, d, deleted);
      var mid := root;
      RemovedIsSorted(before.root, mid, d);
      system := LetGo(system, mid, Changed(mid, u));
      root, updated, cache := ApplyUpdates(root, u, items, updated, cache);
      AppliedIsSorted(mid, root, u);
      m := Tx.Delivery(d, u, items, mid, root);
      if Coherent(before.root) && forall q :: Undisturbed(before.root, root, q) {
        ReplicationKeepsCoherence(before.root, mid, root, d, u);
      }
      ghost var w := Tx.World(stored, before, next);
      if Tx.Delivers(w, m) {
        if Steady(before, next) {
          Tx.DeliveryKeeps(w, m);
        }
        if Dated(before.root, next) && Tx.Sendable(w, Tx.Replicate(m)) {
          DeliveryKeepsDated(w, m);
        }
        if TimerTree(before.root, log, next) && Tx.Sendable(w, Tx.Replicate(m)) {
          DeliveryTimers(w, m, log);
        }
      }
    }

    method ApplySnapshot(incoming: Updates, items: set<Path>) returns (ghost m: Tx.Delivery)
      requires SortedTree(root) && forall p :: p in incoming ==> SortedNode(incoming[p])
      modifies this`root, this`updated, this`deleted, this`system, this`cache
      ensures var d, u := SnapshotDeletes(old(root), incoming, items), SnapshotUpdates(old(root), incoming, items);
        && m == Tx.Delivery(d, u, items, m.mid, root) && View() == Tx.Delivered(old(View()), m)
        && Removed(old(root), m.mid, d) && Applied(m.mid, root, u, u.Keys)
      ensures SortedTree(root)
      ensures old(Coherent(root)) && (forall q :: Undisturbed(old(root), root, q)) ==> Coherent(root)
      ensures var w := Tx.World(stored, old(View()), next);
        Tx.Delivers(w, m) ==>
          && (old(IsSteady()) ==> IsSteady()) && (old(Tracked()) ==> Tracked())
          && (Tx.Sendable(w, Tx.Replicate(m)) ==>
                (old(Timed()) ==> Timed()) && (old(Dated(root, next)) ==> Dated(root, next)))
    {
      hide Removed, Applied, SortedTree, SortedNode, Snapshot, Tx.Delivered, Tx.Delivers, Tx.Sendable, Tracked,
           IsSteady, Timed, Coherent, Undisturbed, Dated;
      m := ApplyMutation(SnapshotDeletes(root, incoming, items), SnapshotUpdates(root, incoming, items), items);
    }

    method RefreshTasks()
      modifies this`root, this`system, this`log
      ensures View() == Tx.Refreshed(old(View()))
      ensures old(SortedTree(root)) ==> SortedTree(root)
      ensures old(Coherent(root)) ==> Coherent(root)
      ensures (old(IsSteady()) ==> IsSteady()) && (old(Tracked()) ==> Tracked())
      ensures (old(Timed()) ==> Timed()) && (old(Dated(root, next)) ==> Dated(root, next))
      ensures log == []
    {
      hide ResetItem, ResetPaths, AllLive, KeysIn, Regrow, Flat, Steady, TracksAt, TimerTree, Coherent, SortedTree,
           Dated;
      ghost var before := View();
      var nodes;
      nodes, system := Refresh(Flat(root), system);
      root := Regrow(root, nodes, []);
      if SortedTree(before.root) {
        RefreshKeepsSorted(before);
      }
      if Coherent(before.root) {
        RefreshKeepsCoherence(before);
      }
      ghost var w := Tx.World(stored, before, next);
      if Dated(before.root, next) {
        RefreshKeepsDated(w);
      }
      Tx.RefreshKeeps(w);
      if TimerTree(before.root, log, next) {
        RefreshTimers(w, log);
      }
      log := [];
    }

    /** `now` is the transition the backend gives this transaction, `after` the one it will give the next. */
    method CloseTransaction(now: VT, ghost after: VT) returns (r: Result<Mutation>, ghost run: Run)
      requires Coherent(root)
      modifies this
      ensures updated == map[] && deleted == {} && system == map[] && newTasks == map[]
      ensures r.Success? ==>
        var c := Judging(now, validate, old(newTasks), run.resolved);
        && GoodRun(old(View()), c, run)
        && Flat(root) == FinalNodes(run, c)
        && r.value == ReturnedMutation(old(View()), c, run)
        && physical == old(physical) + run.out && log == old(log) + run.out
        && Aligned(root) && Coherent(root)
        && stored == Apply(old(stored), r.value) && next == after
      ensures r.Success? && old(IsSteady()) && now == old(next) && Less(now, after) ==>
        ClosedWell(Tx.World(old(stored), old(View()), old(next)), old(log), TimerKey(run),
                   Tx.World(stored, View(), next), log)
      ensures r.Failure? ==>
        || Unprepared(old(View()), now)
        || (&& Prepared(old(View()), now, run.resolved)
            && Unfinished(Judging(now, validate, old(newTasks), run.resolved), run.resolved))
    {
      hide Unprepared, Prepared, Unfinished, GoodRun, FinalNodes, ReturnedMutation, Coherent, Aligned, Flat, Steady,
           Tracks, TimerTree, Apply, Judging, Dated, TimerKey, Less, ClosedWell;
      ghost var w := Tx.World(stored, View(), next);
      ghost var before, news := log, newTasks;
      var out;
      r, root, run, out := Close(View(), now, validate, newTasks);
      updated, deleted, system, newTasks := map[], {}, map[], map[];
      if r.Success? {
        physical := physical + out;
        stored, next, log := Apply(stored, r.value), after, log + out;
        ghost var c := Judging(now, validate, news, run.resolved);
        ClosedIsAligned(w.s, c, run, root);
        if Steady(w.s, w.next) && now == w.next && Less(now, after) {
          CloseEndsWell(w, c, run, after, before, root);
        }
      }
    }
  }

  lemma CloseEndsWell(w: Tx.World, c: Closing, run: Run, after: VT, log: seq<Physical>, t: Tree)
    requires Steady(w.s, w.next) && c.next == w.next && Less(w.next, after) && GoodRun(w.s, c, run)
    requires Flat(t) == FinalNodes(run, c)
    ensures var stored, s := Apply(w.stored, ReturnedMutation(w.s, c, run)), State(t, map[], {}, map[]);
      ClosedWell(w, log, TimerKey(run), Tx.World(stored, s, after), log + run.out)
  {
    hide Tracks, Steady, TimerTree, GoodRun, Consistent, FinalNodes, ReturnedMutation, Apply, Serialization, SortedTree,
         Dated, Flat, Includes, NotesFit;
    Tx.CloseKeeps(w, c, run, after, Apply(w.stored, ReturnedMutation(w.s, c, run)));
    SameFlat(t, Tx.ClosedTree(c, run));
    if Dated(w.s.root, w.next) {
      ClosedIsDated(w, c, run, after, t);
      DatedIsSorted(t, after);
    }
    if TimerTree(w.s.root, log, w.next) {
      ClosedIsTimed(w, c, run, log, after, t);
    }
    if Tracks(w.stored, w.s, w.next) {
      PersistenceAgreement(w.stored, w.s, c, run);
      NodesAreStoredIff(w.stored, w.s, c, run);
    }
  }

  /** A tree is its paths and nodes. */
  lemma SameFlat(a: Tree, b: Tree)
    requires Flat(a) == Flat(b)
    ensures a == b
  {
    hide Flat;
    forall p ensures (Has(a, p) <==> Has(b, p)) && (Has(a, p) ==> ItemAt(a, p) == ItemAt(b, p)) {
      FlatAt(a, p);
      FlatAt(b, p);
    }
    SameNodes(a, b);
  }

  lemma FlatAt(t: Tree, p: Path)
    ensures p in Flat(t) <==> Has(t, p)
    ensures Has(t, p) ==> Flat(t)[p] == ItemAt(t, p)
  {
  }

  lemma {:induction false} SameNodes(a: Tree, b: Tree)
    requires forall p :: (Has(a, p) <==> Has(b, p)) && (Has(a, p) ==> ItemAt(a, p) == ItemAt(b, p))
    ensures a == b
  {
    assert Has(a, []) && ItemAt(a, []) == a.item && ItemAt(b, []) == b.item;
    forall k ensures k in a.kids <==> k in b.kids {
      OneDown(a, [k]);
      OneDown(b, [k]);
      assert Has(a, [k]) <==> Has(b, [k]);
    }
    forall k | k in a.kids ensures a.kids[k] == b.kids[k] {
      forall p ensures (Has(a.kids[k], p) <==> Has(b.kids[k], p))
        && (Has(a.kids[k], p) ==> ItemAt(a.kids[k], p) == ItemAt(b.kids[k], p))
      {
        assert ([k] + p)[1..] == p;
        assert Has(a, [k] + p) <==> Has(b, [k] + p);
      }
      SameNodes(a.kids[k], b.kids[k]);
    }
    assert a.kids == b.kids;
  }
}
