/**
  Inputs on which the code does less than one might expect. First a transaction that overwrites a
  field, step by step: it closes, and what is stored afterwards is not the tree.
 */
module Examples {
  import opened Wrappers
  import opened Versions
  import opened Tasks
  import opened TaskLists
  import opened Trees
  import opened StructureSync
  import opened Pointers
  import opened Transactions
  import opened Engine
  import opened Persistence
  import opened Replication
  import PathEncoder
  import Tx = TransactionRuns

  const NEXT := VersionedTransition(1, 1)
  const SER := SerializedNode(
    VersionedTransition(0, 1), VersionedTransition(0, 1), ComponentAttributes("c", [], []), "")
  const NODE := Item(Some(SER), None, NeedDeserialize)

  const FRESH := Component(2, "c", "", map[])
  const FIELDS: map<Name, Field> := map["a" := SubField(Fresh(FRESH))]
  const LINKED: map<Name, Field> := map["a" := SubField(Linked)]

  const OWNER := Item(Some(SER), Some(Component(1, "c", "", FIELDS)), NeedSyncStructure)

  /** A root whose field `a` has a node with a child `b`, and was given a new component. */
  const BEFORE := Tree(OWNER, map["a" := Tree(NODE, map["b" := Tree(NODE, map[])])])

  const OWNER' := Item(Some(SER), Some(Component(1, "c", "", LINKED)), NeedSerialize)
  const ADDED := NewItem(FRESH, NEXT)

  const SYNCED := Tree(OWNER', map["a" := Tree(ADDED, map[])])

  const STATE := State(BEFORE, map[], {}, map[])
  const CLOSING := Closing(NEXT, (v, spec) => Valid, map[])
  const RUN := Run(SYNCED, map[[] := 1, ["a"] := 1], None, false, [])

  ghost const STORED: Store := Serialization(Flat(BEFORE))
  const LOST := NodeKey(["a", "b"], false)

  lemma SyncedTree()
    ensures SyncSubComponents(BEFORE, NEXT) == SYNCED
  {
    var s := SyncSubComponents(BEFORE, NEXT);
    assert Link(OWNER.value.value).fields == LINKED;
    assert s.kids["a"] == SyncField(FIELDS["a"], "a", BEFORE, NEXT) == Build(FRESH, NEXT);
    assert Build(FRESH, NEXT).kids == map[];
    assert s.kids == SYNCED.kids;
  }

  lemma PathsBefore(p: Path)
    ensures Has(BEFORE, p) <==> p in {[], ["a"], ["a", "b"]}
    ensures Has(BEFORE, p) ==> ItemAt(BEFORE, p) == if p == [] then OWNER else NODE
    ensures p == ["a"] || p == ["a", "b"] ==> Where(BEFORE, p) == Replaced
  {
    if |p| == 1 {
      assert p == [p[0]];
      OneDown(BEFORE, p);
    } else if |p| > 1 {
      TwoDown(BEFORE, p);
      if |p| == 2 {
        assert p == [p[0], p[1]] && p[2..] == [];
      } else {
        assert p[2..] != [];
      }
    }
  }

  lemma PathsSynced(p: Path)
    ensures Has(SYNCED, p) <==> p in {[], ["a"]}
    ensures Has(SYNCED, p) ==> ItemAt(SYNCED, p) == if p == [] then OWNER' else ADDED
  {
    if |p| == 1 {
      assert p == [p[0]];
      OneDown(SYNCED, p);
    } else if |p| > 1 {
      TwoDown(SYNCED, p);
    }
  }

  lemma KeysBefore(p: Path)
    requires Has(BEFORE, p)
    ensures KeyAt(BEFORE, p) == NodeKey(p, false)
  {
    hide Has, FindNode;
    PathsBefore(p);
    if |p| > 1 {
      PathsBefore(p[..|p| - 1]);
    }
  }

  lemma NothingReported()
    ensures Deleted(BEFORE) == {} && LOST in Orphans(BEFORE, NEXT)
  {
    hide Has, FindNode, Where, SyncSubComponents, Paths, KeyAt, Orphans, KeysOfFate, PhantomKeys;
    SyncedTree();
    assert Phantoms(BEFORE) == {} by {
      assert SyncPhantoms(FIELDS["a"], "a", BEFORE) == BuildPhantoms(FRESH) == {};
    }
    forall k ensures k !in KeysOfFate(BEFORE, Gone) {
      if k in KeysOfFate(BEFORE, Gone) {
        PathsBefore(k.path);
        SyncPath(BEFORE, NEXT, k.path);
        PathsSynced(k.path);
      }
    }
    PathsBefore(LOST.path);
    KeysBefore(LOST.path);
    PathsSynced(LOST.path);
  }

  lemma StateIsTracked()
    ensures Tracks(STORED, STATE, NEXT)
  {
    hide Has, FindNode, Serialization, Flat, Steady, TracksAt;
    forall p | Has(BEFORE, p) ensures Storable(ItemAt(BEFORE, p), NEXT) {
      PathsBefore(p);
    }
    StoredTreeIsTracked(BEFORE, NEXT);
  }

  lemma SyncedIsPrepared()
    ensures Prepared(STATE, NEXT, SYNCED)
  {
    hide Has, FindNode, Deleted, Orphans, SyncSubComponents;
    SyncedTree();
    NothingReported();
    forall p | Has(SYNCED, p)
      ensures ItemAt(SYNCED, p).state != NeedSyncStructure
      ensures ResolvedItem(SYNCED, p, ItemAt(SYNCED, p), {})
    {
      PathsSynced(p);
      SyncedIsResolved(p);
    }
    assert Aligned(Tree(ADDED, map[]));
  }

  lemma SyncedIsResolved(p: Path)
    requires Has(SYNCED, p)
    ensures ResolvedItem(SYNCED, p, ItemAt(SYNCED, p), {})
  {
    hide Has, FindNode;
    PathsSynced(p);
    if p != [] {
      PathsSynced(p[..|p| - 1]);
    }
    assert SettledFields(p, LINKED, {}) == LINKED;
    assert SettledFields(p, map[], {}) == map[];
  }

  /** A dirty component without tasks closes without any. */
  lemma PlainNode(item: Item, p: Path)
    requires item == OWNER' || item == ADDED
    requires p == [] || p == ["a"]
    ensures Ready(item, p, NEXT)
    ensures var after := Serialized(item, NEXT);
      && !TasksBroken(after, CLOSING)
      && Emissions(after, p, CLOSING, 1) == [] && PuresOf(ClosedItem(after, CLOSING, 1)) == []
      && SpanEnd(after, CLOSING, 1) == 1
  {
    hide SyncSubComponents, Has, FindNode;
    var after := Serialized(item, NEXT);
    var attrs := after.ser.value.attrs;
    assert attrs.sideEffects == [] && attrs.pures == [] && NewsFor(after.value, CLOSING.news) == [];
    assert TaskedAttributes(after, CLOSING, 1) == attrs;
  }

  lemma RunNode(p: Path)
    requires p in Flat(SYNCED)
    ensures p in RUN.offsets && RUN.offsets[p] == 1 && Ready(Flat(SYNCED)[p], p, NEXT)
    ensures p in SerializedNodes(RUN, NEXT) && p in ClosedNodes(RUN, CLOSING)
    ensures var after := SerializedNodes(RUN, NEXT)[p];
      && !TasksBroken(after, CLOSING) && Emissions(after, p, CLOSING, 1) == [] && SpanEnd(after, CLOSING, 1) == 1
      && PuresOf(ClosedNodes(RUN, CLOSING)[p]) == []
  {
    hide Has, FindNode, Ready, Serialized, ClosedItem, TasksBroken, Emissions, PuresOf, SpanEnd;
    PathsSynced(p);
    PlainNode(Flat(SYNCED)[p], p);
  }

  lemma RunPathsAre()
    ensures SerializedNodes(RUN, NEXT).Keys == RUN.offsets.Keys == Flat(SYNCED).Keys
    ensures ClosedNodes(RUN, CLOSING).Keys == Flat(SYNCED).Keys
  {
    hide Has, FindNode, Serialized, ClosedItem;
    PathsSynced([]);
    PathsSynced(["a"]);
    forall p ensures p in Flat(SYNCED) <==> p in RUN.offsets {
      PathsSynced(p);
    }
  }

  /** A run in which no node has or gets a task. */
  lemma IdleRun(c: Closing, run: Run)
    requires run.first.None? && !run.timer && run.out == []
    requires SerializedNodes(run, c.next).Keys == run.offsets.Keys == ClosedNodes(run, c).Keys
    requires forall p :: p in run.offsets ==>
      var after := SerializedNodes(run, c.next)[p];
      && !TasksBroken(after, c) && Emissions(after, p, c, run.offsets[p]) == []
      && run.offsets[p] == 1 && SpanEnd(after, c, 1) == 1
      && PuresOf(ClosedNodes(run, c)[p]) == []
    ensures Handled(c, run)
  {
    hide SerializedNodes, ClosedNodes, TasksBroken, Emissions, PuresOf, SpanEnd;
  }

  lemma RunIsHandled()
    ensures Handled(CLOSING, RUN)
    ensures forall p :: p in Flat(SYNCED) ==> Ready(Flat(SYNCED)[p], p, NEXT)
  {
    hide Flat, SerializedNodes, ClosedNodes, Ready, TasksBroken, Emissions, PuresOf, SpanEnd, Handled;
    RunPathsAre();
    forall p | p in Flat(SYNCED)
      ensures RUN.offsets[p] == 1 && Ready(Flat(SYNCED)[p], p, NEXT)
      ensures var after := SerializedNodes(RUN, NEXT)[p];
        && !TasksBroken(after, CLOSING) && Emissions(after, p, CLOSING, RUN.offsets[p]) == []
        && SpanEnd(after, CLOSING, 1) == 1 && PuresOf(ClosedNodes(RUN, CLOSING)[p]) == []
    {
      RunNode(p);
    }
    IdleRun(CLOSING, RUN);
  }

  /** The claim that a close writes the new tree, refuted by one input. */
  lemma OverwriteDisagrees()
    ensures Tracks(STORED, STATE, NEXT) && GoodRun(STATE, CLOSING, RUN)
    ensures Apply(STORED, ReturnedMutation(STATE, CLOSING, RUN)) != Serialization(FinalNodes(RUN, CLOSING))
  {
    hide Steady, TracksAt, GoodRun, Prepared, Handled, Ready, Flat, Orphans, Deleted, Apply, ReturnedMutation,
         FinalNodes, Serialization, InTree;
    StateIsTracked();
    assert GoodRun(STATE, CLOSING, RUN) by {
      SyncedIsPrepared();
      RunIsHandled();
      GoodRunFrom(STATE, CLOSING, RUN);
    }
    NothingReported();
    StoredBefore();
    OrphanIsLost(STORED, STATE, NEXT, LOST);
    OrphanStaysStored(STORED, STATE, CLOSING, RUN, LOST);
  }

  /** The same overwrite, synchronised before the close: the tree is settled and nothing shows the loss any more. */
  const MIDWAY := State(SYNCED, map[], {}, map[])

  lemma MidwayIsSynchronised()
    ensures Tx.Synchronised(STATE, NEXT) == MIDWAY
  {
    hide SyncSubComponents, Deleted, Has, FindNode, Where;
    SyncedTree();
    NothingReported();
  }

  lemma MidwayIsSettled()
    ensures SyncSubComponents(SYNCED, NEXT) == SYNCED && Deleted(SYNCED) == {} && Orphans(SYNCED, NEXT) == {}
  {
    hide SyncSubComponents, Has, FindNode, Where, KeysOfFate, PhantomKeys, Orphans, KeyAt;
    assert Settled(SYNCED) by {
      forall p | Has(SYNCED, p) ensures ItemAt(SYNCED, p).state != NeedSyncStructure {
        PathsSynced(p);
      }
    }
    SyncIsIdempotent(SYNCED, NEXT);
    forall k ensures k !in Deleted(SYNCED) && k !in Orphans(SYNCED, NEXT) {
      SettledReportsNothing(SYNCED, k.path);
    }
  }

  /** One synchronisation earlier in the transaction, and the key is lost all the same. */
  lemma MidTransactionSyncDisagrees()
    ensures Tx.Do(Tx.World(STORED, STATE, NEXT), Tx.SyncNow).s == MIDWAY && Tracks(STORED, MIDWAY, NEXT)
    ensures GoodRun(MIDWAY, CLOSING, RUN) && Orphans(MIDWAY.root, NEXT) == {}
    ensures Apply(STORED, ReturnedMutation(MIDWAY, CLOSING, RUN)) != Serialization(FinalNodes(RUN, CLOSING))
  {
    hide Steady, TracksAt, GoodRun, Handled, Ready, Flat, Orphans, Deleted, Apply, ReturnedMutation, FinalNodes,
         Serialization, InTree, SyncSubComponents, Settled, Aligned, Resolved, Tx.Synchronised, Has, FindNode;
    MidwayIsSynchronised();
    MidwayIsSettled();
    StateIsTracked();
    Tx.ActionKeeps(Tx.World(STORED, STATE, NEXT), Tx.SyncNow);
    SyncedTree();
    SyncedIsPrepared();
    RunIsHandled();
    GoodRunFrom(MIDWAY, CLOSING, RUN);
    StoredBefore();
    LostIsNotSynced();
    OrphanStaysStored(STORED, MIDWAY, CLOSING, RUN, LOST);
  }

  lemma LostIsNotSynced()
    ensures !InTree(SYNCED, LOST)
  {
    hide Has, FindNode;
    PathsSynced(LOST.path);
  }

  lemma GoodRunFrom(s: State, c: Closing, run: Run)
    requires Prepared(s, c.next, run.resolved) && Handled(c, run)
    requires forall p :: p in Flat(run.resolved) ==> Ready(Flat(run.resolved)[p], p, c.next)
    ensures GoodRun(s, c, run)
  {
    hide Prepared, Handled, Ready, Flat;
  }

  lemma StoredBefore()
    ensures LOST in STORED
  {
    hide Has, FindNode, KeyAt, KeyIn;
    PathsBefore(LOST.path);
    KeysBefore(LOST.path);
    KeyInFlat(BEFORE, LOST.path);
    assert Flat(BEFORE)[LOST.path] == ItemAt(BEFORE, LOST.path);
  }

  // ---------------------------------- a path that comes back as another kind

  const COLLECTION := Item(Some(SER.(attrs := CollectionAttributes)), None, NeedDeserialize)
  const INNER := Component(5, "c", "", map[])
  const MIDDLE := Component(4, "c", "", map["b" := SubField(Fresh(INNER))])
  const OUTER := Component(3, "c", "", map["a" := SubField(Fresh(MIDDLE))])
  const GROUPED: map<Name, Field> := map["x" := SubField(Fresh(OUTER))]

  /** The old `x` has a map `a` with an item `b`; the new one has a component `a` with a child `b`. */
  const RETYPED := Tree(
    Item(Some(SER), Some(Component(1, "c", "", GROUPED)), NeedSyncStructure),
    map["x" := Tree(NODE, map["a" := Tree(COLLECTION, map["b" := Tree(NODE, map[])])])])

  lemma ThreeDown(t: Tree, a: Name, b: Name, c: Name)
    ensures FindNode(t, [a, b, c]) ==
      if a in t.kids && b in t.kids[a].kids && c in t.kids[a].kids[b].kids
      then Some(t.kids[a].kids[b].kids[c]) else None
    ensures FindNode(t, [a, b]) == if a in t.kids && b in t.kids[a].kids then Some(t.kids[a].kids[b]) else None
  {
    assert [a, b, c][2..] == [c] && [a, b][2..] == [];
    TwoDown(t, [a, b, c]);
    TwoDown(t, [a, b]);
    if a in t.kids && b in t.kids[a].kids {
      OneDown(t.kids[a].kids[b], [c]);
    }
  }

  /** The path is in the tree again, yet the key it was stored under is lost unreported. */
  lemma RetypedPathIsOrphaned()
    ensures Has(SyncSubComponents(RETYPED, NEXT), ["x", "a", "b"])
    ensures NodeKey(["x", "a", "b"], true) in Orphans(RETYPED, NEXT)
  {
    hide Has, Paths, PhantomKeys, Orphans;
    var p, t1 := ["x", "a", "b"], SyncSubComponents(RETYPED, NEXT);
    ThreeDown(RETYPED, "x", "a", "b");
    ThreeDown(t1, "x", "a", "b");
    assert p[..2] == ["x", "a"];
    RetypedFate();
    RetypedTree();
  }

  lemma RetypedFate()
    ensures Has(RETYPED, ["x", "a", "b"]) && Where(RETYPED, ["x", "a", "b"]) == Replaced
  {
    hide Has;
    ThreeDown(RETYPED, "x", "a", "b");
    assert KidFate(RETYPED, "x") == Replaced;
  }

  lemma RetypedTree()
    ensures var t1 := SyncSubComponents(RETYPED, NEXT);
      && "x" in t1.kids && "a" in t1.kids["x"].kids && "b" in t1.kids["x"].kids["a"].kids
      && !CollectionNode(t1.kids["x"].kids["a"].item)
  {
    var t1 := SyncSubComponents(RETYPED, NEXT);
    assert t1.kids["x"] == SyncField(GROUPED["x"], "x", RETYPED, NEXT) == Build(OUTER, NEXT);
    assert Build(OUTER, NEXT).kids["a"] == Build(MIDDLE, NEXT);
    assert Build(MIDDLE, NEXT).kids["b"] == Build(INNER, NEXT);
  }

  // ------------------------------------------- dirt below an unloaded child

  const DIRTY := Item(Some(SER), Some(Component(3, "c", "", map[])), NeedSyncStructure)

  /** A dirty root, a child that is a component but not in memory, and a dirty component below it. */
  const HIDDEN := Tree(
    Item(Some(SER), Some(Component(1, "c", "", LINKED)), NeedSyncStructure),
    map["a" := Tree(NODE, map["b" := Tree(DIRTY, map[])])])

  lemma HiddenIsOverlooked()
    ensures Overlooked(HIDDEN, ["a", "b"])
  {
    var p := ["a", "b"];
    TwoDown(HIDDEN, p);
    assert p[2..] == [];
    assert FindNode(HIDDEN, p) == Some(Tree(DIRTY, map[]));
    assert KidFate(HIDDEN, "a") == Kept && Where(HIDDEN, p) == Kept;
  }

  /** The walk does not reach the dirty component, so no transaction with this tree closes. */
  lemma HiddenDirtStopsTheClose(c: Closing, run: Run)
    ensures !GoodRun(State(HIDDEN, map[], {}, map[]), c, run)
  {
    hide SyncSubComponents, Overlooked, Deleted, GoodRun, Settled;
    HiddenIsOverlooked();
    SettledIff(HIDDEN, c.next);
    ObstaclesStopTheClose(State(HIDDEN, map[], {}, map[]), c, run);
  }

  // ------------------------------------- a refreshed node replaced by replication

  const SENT_TASK := Task("t", "", Some(5), Blob(0, ""), VersionedTransition(0, 1), 1, Created)
  const WAITING := SENT_TASK.(status := NotCreated)
  const OLD_NODE := SerializedNode(
    VersionedTransition(0, 1), VersionedTransition(0, 1), ComponentAttributes("c", [SENT_TASK], []), "old")
  const RESET_NODE := OLD_NODE.(attrs := ComponentAttributes("c", [WAITING], []))
  const NEW_NODE := RESET_NODE.(last := VersionedTransition(0, 2), data := "new")

  /** A tree of one node. */
  function Single(ser: SerializedNode): Tree {
    Tree(Item(Some(ser), None, NeedDeserialize), map[])
  }

  lemma OnlyRoot(ser: SerializedNode, p: Path)
    ensures Has(Single(ser), p) <==> p == []
    ensures ItemAt(Single(ser), []) == Single(ser).item
    ensures Flat(Single(ser)) == map[[] := Single(ser).item]
    ensures KeyAt(Single(ser), p) == NodeKey(p, false)
  {
    assert Paths(Single(ser)) == {[]};
    if |p| > 1 {
      assert p[..|p| - 1] != [];
    }
  }

  const CLUSTER := Tx.World(map[NodeKey([], false) := OLD_NODE], State(Single(OLD_NODE), map[], {}, map[]), NEXT)
  const DELIVERY := Tx.Delivery({}, map[[] := NEW_NODE], {}, Single(RESET_NODE), Single(NEW_NODE))
  const ONE_RUN := Run(
    Single(NEW_NODE), map[[] := 1], None, false,
    [SideEffect([], VersionedTransition(0, 1), VersionedTransition(0, 2), Category.Timer, WAITING)])

  lemma ClusterIsTracked()
    ensures Tracks(CLUSTER.stored, CLUSTER.s, NEXT)
  {
    hide Has, FindNode, KeyAt;
    assert Scanned([SENT_TASK]);
    forall k ensures SteadyAt(CLUSTER.s, NEXT, k) && TracksAt(CLUSTER.stored, CLUSTER.s, k) {
      OnlyRoot(OLD_NODE, k.path);
    }
  }

  lemma ClusterRefreshes()
    ensures Tx.Refreshed(CLUSTER.s).root == Single(RESET_NODE) && Resets(ItemAt(CLUSTER.s.root, []))
  {
    hide Has, FindNode;
    OnlyRoot(OLD_NODE, []);
    var item := Single(OLD_NODE).item;
    var none: seq<Task> := [];
    assert Reset([SENT_TASK]) == [WAITING] && Reset(none) == none;
    assert ResetItem(item) == Single(RESET_NODE).item;
    assert [SENT_TASK][0].status == Created;
    assert Tx.Refreshed(CLUSTER.s).root.kids == map[];
  }

  lemma NodeArrives()
    ensures CarrySer(RESET_NODE, NEW_NODE) == NEW_NODE && !SameVersion(Single(RESET_NODE).item, NEW_NODE)
  {
    assert Lookup(BySideEffect, [WAITING], WAITING) == Some(WAITING);
    assert CarryOver(BySideEffect, [WAITING], [WAITING]) == [WAITING];
    var none: seq<Task> := [];
    assert CarryOver(ByPure, none, none) == none;
  }

  lemma ClusterReceives()
    ensures Tx.Delivers(Tx.Do(CLUSTER, Tx.RefreshAll), DELIVERY)
    ensures [] in Changed(DELIVERY.mid, DELIVERY.updated)
  {
    hide Has, FindNode, KeyAt, CarrySer, SameVersion, ResetSer, Tx.Refreshed;
    ClusterRefreshes();
    NodeArrives();
    var w := Tx.Do(CLUSTER, Tx.RefreshAll);
    OnlyRoot(RESET_NODE, []);
    forall q
      ensures RemovedAt(w.s.root, DELIVERY.mid, {}, q)
      ensures AppliedAt(DELIVERY.mid, DELIVERY.end, DELIVERY.updated, DELIVERY.updated.Keys, q)
      ensures Tx.Orderly(w, DELIVERY, q)
    {
      OnlyRoot(RESET_NODE, q);
      OnlyRoot(NEW_NODE, q);
      Tx.RefreshNotes(CLUSTER.s, NodeKey(q, false));
      var root: Path := [];
      assert q == root ==> root in {root} && q <= root;
    }
  }

  /** A tree of which nothing is in memory. */
  ghost predicate Unloaded(t: Tree) {
    forall p :: Has(t, p) ==> ItemAt(t, p).value.None? && ItemAt(t, p).state == NeedDeserialize
  }

  lemma {:induction false} UnloadedIsAligned(t: Tree)
    requires Unloaded(t)
    ensures Aligned(t)
  {
    hide Matches;
    assert Has(t, []);
    forall k | k in t.kids ensures Aligned(t.kids[k]) {
      forall p | Has(t.kids[k], p)
        ensures ItemAt(t.kids[k], p).value.None? && ItemAt(t.kids[k], p).state == NeedDeserialize
      {
        assert ([k] + p)[1..] == p;
        assert Has(t, [k] + p) && ItemAt(t, [k] + p) == ItemAt(t.kids[k], p);
      }
      UnloadedIsAligned(t.kids[k]);
    }
  }

  /** Closing it has nothing to synchronise and nothing to resolve. */
  lemma UnloadedIsPrepared(s: State, next: VT)
    requires Unloaded(s.root)
    ensures Prepared(s, next, s.root) && SyncSubComponents(s.root, next) == s.root
  {
    hide SyncSubComponents, Has, FindNode, Where, KeysOfFate, PhantomKeys, Aligned, KeyAt;
    var t := s.root;
    UnloadedIsAligned(t);
    SyncIsIdempotent(t, next);
    forall k ensures k !in Deleted(t) {
      SettledReportsNothing(t, k.path);
    }
    forall q | Has(t, q) ensures ResolvedItem(t, q, ItemAt(t, q), {}) {
      if q != [] && Has(t, q[..|q| - 1]) {
        assert ItemAt(t, q[..|q| - 1]).value.None?;
      }
    }
  }

  lemma ReceivedIsPrepared()
    ensures Tx.Delivered(Tx.Refreshed(CLUSTER.s), DELIVERY).root == Single(NEW_NODE)
    ensures Prepared(Tx.Delivered(Tx.Refreshed(CLUSTER.s), DELIVERY), NEXT, Single(NEW_NODE))
  {
    hide Has, FindNode, Prepared, Tx.Refreshed, Changed, AllBelow, Detached, LetGo, AllLive, KeysFor;
    forall q | Has(Single(NEW_NODE), q) ensures ItemAt(Single(NEW_NODE), q) == Single(NEW_NODE).item {
      OnlyRoot(NEW_NODE, q);
    }
    UnloadedIsPrepared(Tx.Delivered(Tx.Refreshed(CLUSTER.s), DELIVERY), NEXT);
  }

  lemma ReceivedIsHandled()
    ensures Handled(CLOSING, ONE_RUN)
    ensures forall p :: p in Flat(Single(NEW_NODE)) ==> Ready(Flat(Single(NEW_NODE))[p], p, NEXT)
  {
    hide Has, FindNode, Flat, ClosedItem, Emissions, OfNode, Timers;
    OnlyRoot(NEW_NODE, []);
    var item := Single(NEW_NODE).item;
    assert Serialized(item, NEXT) == item && !UpdatedNow(item, NEXT);
    WaitingIsEmitted();
    PlainClosed();
  }

  lemma WaitingIsEmitted()
    ensures var out := ONE_RUN.out;
      && Emissions(Single(NEW_NODE).item, [], CLOSING, 1) == out && OfNode(out, []) == out
      && (forall p :: p != [] ==> OfNode(out, p) == []) && Timers(out) == []
  {
    var out := ONE_RUN.out;
    assert TaskedAttributes(Single(NEW_NODE).item, CLOSING, 1) == NEW_NODE.attrs;
    assert [WAITING][..0] == [];
    assert Emitted([WAITING]) == [WAITING];
    assert out[1..] == [];
    assert forall p :: p != [] ==> OfNode(out, p) == OfNode(out[1..], p);
    assert Timers(out) == Timers(out[1..]);
  }

  lemma PlainClosed()
    ensures PuresOf(ClosedItem(Single(NEW_NODE).item, CLOSING, 1)) == []
  {
    assert TaskedAttributes(Single(NEW_NODE).item, CLOSING, 1) == NEW_NODE.attrs;
  }

  /** Refresh, replicate a newer node, close: storage keeps the old node, the tree has the new one. */
  lemma ReplacedRefreshDisagrees()
    ensures var s := Tx.Delivered(Tx.Refreshed(CLUSTER.s), DELIVERY);
      && Tracks(CLUSTER.stored, CLUSTER.s, NEXT) && Tx.Delivers(Tx.Do(CLUSTER, Tx.RefreshAll), DELIVERY)
      && GoodRun(s, CLOSING, ONE_RUN)
      && Apply(CLUSTER.stored, ReturnedMutation(s, CLOSING, ONE_RUN)) != Serialization(FinalNodes(ONE_RUN, CLOSING))
  {
    hide Steady, TracksAt, Tx.Delivers, Tx.Delivered, Tx.Refreshed, Prepared, Handled, Ready, Flat, Changed,
         ReturnedMutation, FinalNodes, Serialization, Apply, Resets, Has, FindNode;
    ClusterIsTracked();
    ClusterRefreshes();
    ClusterReceives();
    ReceivedIsPrepared();
    ReceivedIsHandled();
    OnlyRoot(OLD_NODE, []);
    OnlyRoot(RESET_NODE, []);
    var s := Tx.Delivered(Tx.Refreshed(CLUSTER.s), DELIVERY);
    GoodRunFrom(s, CLOSING, ONE_RUN);
    Tx.ReplacedRefreshIsWritten(CLUSTER, DELIVERY, CLOSING, ONE_RUN, []);
  }

  // ---------------------------------------- a node deleted and put back

  const RENEWED := SER.(last := VersionedTransition(0, 2))

  /** A root with one child. */
  function Pair(kid: SerializedNode): Tree {
    Tree(NODE, map["a" := Single(kid)])
  }

  lemma PairPaths(kid: SerializedNode, p: Path)
    ensures Has(Pair(kid), p) <==> p == [] || p == ["a"]
    ensures Has(Pair(kid), p) ==> ItemAt(Pair(kid), p) == if p == [] then NODE else Single(kid).item
    ensures |p| <= 1 ==> KeyAt(Pair(kid), p) == NodeKey(p, false)
  {
    if |p| == 1 {
      OneDown(Pair(kid), p);
      assert p == [p[0]];
    } else if |p| > 1 {
      TwoDown(Pair(kid), p);
    }
  }

  const KID := NodeKey(["a"], false)
  const HOME := State(Pair(SER), map[], {}, map[])
  ghost const HELD: Store := Serialization(Flat(Pair(SER)))

  /** The mutation deletes the child and brings a newer one. */
  const RETURN := Tx.Delivery({["a"]}, map[["a"] := RENEWED], {}, Single(SER), Pair(RENEWED))
  const IDLE := Run(Pair(RENEWED), map[[] := 1, ["a"] := 1], None, false, [])

  lemma HomeIsTracked()
    ensures Tracks(HELD, HOME, NEXT)
  {
    hide Has, FindNode, Serialization, Flat, Steady, TracksAt;
    forall p | Has(Pair(SER), p) ensures Storable(ItemAt(Pair(SER), p), NEXT) {
      PairPaths(SER, p);
    }
    StoredTreeIsTracked(Pair(SER), NEXT);
  }

  lemma PlainSer()
    ensures ResetSer(RENEWED) == RENEWED
  {
    var none: seq<Task> := [];
    assert Reset(none) == none;
  }

  /** The paths the mutation names: the child's, and its ancestors'. */
  lemma ReturnPaths(q: Path)
    ensures Hit({["a"]}, q) <==> ["a"] <= q
    ensures Covered(RETURN.updated.Keys, q) <==> q == [] || q == ["a"]
  {
    var a: Path := ["a"];
    assert q == [] || q == a ==> a in RETURN.updated.Keys && q <= a;
    assert a <= q ==> a in {a} && a <= q;
    assert q <= a ==> q == [] || q == a;
  }

  lemma ReturnRemoves(q: Path)
    ensures RemovedAt(Pair(SER), RETURN.mid, {["a"]}, q)
  {
    hide Has, FindNode, Hit;
    PairPaths(SER, q);
    OnlyRoot(SER, q);
    ReturnPaths(q);
  }

  lemma ReturnApplies(q: Path)
    ensures AppliedAt(RETURN.mid, RETURN.end, RETURN.updated, RETURN.updated.Keys, q)
  {
    hide Has, FindNode, Covered, CarrySer, SameVersion, ResetSer;
    PlainSer();
    PairPaths(RENEWED, q);
    OnlyRoot(SER, q);
    ReturnPaths(q);
  }

  lemma ReturnIsOrderly(q: Path)
    ensures Tx.Orderly(Tx.World(HELD, HOME, NEXT), RETURN, q)
  {
    hide Has, FindNode, KeyAt, Serialization, Flat;
    PairPaths(SER, q);
    PairPaths(RENEWED, q);
    OnlyRoot(SER, q);
    OnlyRoot(SER, []);
  }

  lemma ReturnDelivers()
    ensures Tx.Delivers(Tx.World(HELD, HOME, NEXT), RETURN)
  {
    hide RemovedAt, AppliedAt, Tx.Orderly, Serialization, Flat;
    forall q
      ensures RemovedAt(Pair(SER), RETURN.mid, {["a"]}, q)
      ensures AppliedAt(RETURN.mid, RETURN.end, RETURN.updated, RETURN.updated.Keys, q)
      ensures Tx.Orderly(Tx.World(HELD, HOME, NEXT), RETURN, q)
    {
      ReturnRemoves(q);
      ReturnApplies(q);
      ReturnIsOrderly(q);
    }
  }

  lemma ReturnedState()
    ensures var s := Tx.Delivered(HOME, RETURN);
      s.root == Pair(RENEWED) && KID in s.deleted && s.updated == map[KID := Live] && s.system == map[]
  {
    hide Has, FindNode, KeyAt, SameVersion, Detached, AllBelow, KeysFor;
    var a: Path := ["a"];
    PairPaths(SER, a);
    OnlyRoot(SER, a);
    assert a in {a} && a <= a;
    assert KID in AllBelow(HOME.root, RETURN.deleted);
    assert Changed(RETURN.mid, RETURN.updated) == {a};
    assert KeysFor({a}, {}) == {KID} by {
      forall k ensures k in KeysFor({a}, {}) <==> k == KID {
      }
    }
  }

  lemma PairIsUnloaded()
    ensures Unloaded(Pair(RENEWED)) && Flat(Pair(RENEWED)).Keys == {[], ["a"]}
    ensures Flat(Pair(RENEWED))[[]] == NODE && Flat(Pair(RENEWED))[["a"]] == Single(RENEWED).item
  {
    hide Has, FindNode;
    forall p ensures Has(Pair(RENEWED), p) <==> p in {[], ["a"]} {
      PairPaths(RENEWED, p);
    }
    PairPaths(RENEWED, []);
    PairPaths(RENEWED, ["a"]);
  }

  lemma QuietNode(item: Item, p: Path)
    requires item == NODE || item == Single(RENEWED).item
    ensures Ready(item, p, NEXT) && Serialized(item, NEXT) == item && !TasksBroken(item, CLOSING)
    ensures Emissions(item, p, CLOSING, 1) == [] && SpanEnd(item, CLOSING, 1) == 1
    ensures PuresOf(ClosedItem(item, CLOSING, 1)) == [] && ClosedItem(item, CLOSING, 1) == item
  {
    var none: seq<Task> := [];
    assert Marked(none) == none && Emitted(none) == none;
    assert TaskedAttributes(item, CLOSING, 1) == item.ser.value.attrs;
  }

  lemma IdleIsHandled()
    ensures Handled(CLOSING, IDLE)
    ensures forall p :: p in Flat(Pair(RENEWED)) ==> Ready(Flat(Pair(RENEWED))[p], p, NEXT)
  {
    hide Flat, Ready, Serialized, ClosedItem, TasksBroken, Emissions, SpanEnd, PuresOf, Handled;
    PairIsUnloaded();
    QuietNode(NODE, []);
    QuietNode(Single(RENEWED).item, ["a"]);
    assert IDLE.offsets.Keys == {[], ["a"]};
    IdleRun(CLOSING, IDLE);
  }

  /** Replication deletes a node and puts a newer one back; the close then reports it both ways. */
  lemma ReturnedNodeOverlaps()
    ensures Tracks(HELD, HOME, NEXT) && Tx.Delivers(Tx.World(HELD, HOME, NEXT), RETURN)
    ensures var s := Tx.Delivered(HOME, RETURN);
      var m := ReturnedMutation(s, CLOSING, IDLE);
      && GoodRun(s, CLOSING, IDLE) && Consistent(HELD, s, NEXT, TimerKey(IDLE))
      && KID in m.updated && KID in m.deleted
  {
    hide Steady, TracksAt, Tx.Delivers, Tx.Delivered, Prepared, Handled, Ready, Flat, ReturnedMutation, Has, FindNode,
         SyncSubComponents, Deleted, Serialization, KeyAt, Unloaded, GoodRun;
    var s := Tx.Delivered(HOME, RETURN);
    HomeIsTracked();
    ReturnDelivers();
    ReturnedState();
    Tx.ActionKeeps(Tx.World(HELD, HOME, NEXT), Tx.Replicate(RETURN));
    PairIsUnloaded();
    UnloadedIsPrepared(s, NEXT);
    IdleIsHandled();
    GoodRunFrom(s, CLOSING, IDLE);
    ReturnedIsConsistent();
    PairPaths(RENEWED, ["a"]);
    ConsistentOverlapIff(HELD, s, CLOSING, IDLE, KID);
  }

  lemma ReturnedIsConsistent()
    ensures Consistent(HELD, Tx.Delivered(HOME, RETURN), NEXT, None)
  {
    hide Tx.Delivered, Has, FindNode, SyncSubComponents, KeyAt, Unloaded, Flat, Serialization, Lost, Loose, Prepared,
         Deleted;
    var s := Tx.Delivered(HOME, RETURN);
    ReturnedState();
    PairIsUnloaded();
    UnloadedIsPrepared(s, NEXT);
    PairPaths(RENEWED, KID.path);
    forall k ensures !Lost(HELD, s, NEXT, k) {
      NothingIsLost(k);
    }
  }

  lemma NothingIsLost(k: NodeKey)
    ensures !Lost(HELD, Tx.Delivered(HOME, RETURN), NEXT, k)
  {
    hide Tx.Delivered, Has, FindNode, SyncSubComponents, Deleted, KeyAt, Unloaded, Flat;
    ReturnedState();
    PairIsUnloaded();
    UnloadedIsPrepared(Tx.Delivered(HOME, RETURN), NEXT);
    PairPaths(SER, k.path);
    PairPaths(RENEWED, k.path);
    KeyInFlat(Pair(SER), k.path);
  }

  // ------------------------------------------ a refreshed node whose field is cleared

  const CLEARED: map<Name, Field> := map["a" := SubField(Empty)]
  const HOLDER := Item(Some(SER), Some(Component(1, "c", "", LINKED)), Synced)
  const CLEARER := Item(Some(SER), Some(Component(1, "c", "", CLEARED)), NeedSyncStructure)

  /** A root in memory with one child that is not. */
  function Household(root: Item, kid: SerializedNode): Tree {
    Tree(root, map["a" := Single(kid)])
  }

  const HOUSE := State(Household(HOLDER, OLD_NODE), map[], {}, map[])
  ghost const HOUSED := Tx.World(Serialization(Flat(HOUSE.root)), HOUSE, NEXT)
  const EMPTIED := Household(CLEARER, RESET_NODE)
  const LEFT := Tree(CLEARER.(state := NeedSerialize), map[])
  const LAST_RUN := Run(LEFT, map[[] := 1], None, false, [])

  lemma HouseholdPaths(root: Item, kid: SerializedNode, p: Path)
    requires !CollectionNode(root)
    ensures Has(Household(root, kid), p) <==> p == [] || p == ["a"]
    ensures Has(Household(root, kid), p) ==>
      ItemAt(Household(root, kid), p) == if p == [] then root else Single(kid).item
    ensures |p| <= 1 ==> KeyAt(Household(root, kid), p) == NodeKey(p, false)
  {
    if |p| == 1 {
      OneDown(Household(root, kid), p);
      assert p == [p[0]];
    } else if |p| > 1 {
      TwoDown(Household(root, kid), p);
    }
  }

  lemma HouseIsTracked()
    ensures Tracks(HOUSED.stored, HOUSE, NEXT)
  {
    hide Has, FindNode, Serialization, Flat, Steady, TracksAt;
    assert Scanned([SENT_TASK]);
    forall p | Has(HOUSE.root, p) ensures Storable(ItemAt(HOUSE.root, p), NEXT) {
      HouseholdPaths(HOLDER, OLD_NODE, p);
    }
    StoredTreeIsTracked(HOUSE.root, NEXT);
  }

  lemma KidIsReset()
    ensures ResetItem(Single(OLD_NODE).item) == Single(RESET_NODE).item && ResetItem(HOLDER) == HOLDER
    ensures Resets(Single(OLD_NODE).item)
  {
    var none: seq<Task> := [];
    assert Reset([SENT_TASK]) == [WAITING] && Reset(none) == none;
    assert [SENT_TASK][0].status == Created;
  }

  /** Component code clears the field. */
  lemma HouseIsEmptied()
    ensures Tx.Allowed(Tx.Do(HOUSED, Tx.RefreshAll), Tx.Mutate(EMPTIED))
  {
    hide Has, FindNode, Tx.Refreshed, ResetItem, Serialization, Flat;
    forall p ensures Tx.MutatesAt(Tx.Refreshed(HOUSE).root, EMPTIED, p) {
      Tx.RefreshedAt(HOUSE, p);
      HouseholdPaths(HOLDER, OLD_NODE, p);
      HouseholdPaths(CLEARER, RESET_NODE, p);
      KidIsReset();
    }
  }

  lemma KidIsDeleted()
    ensures SyncSubComponents(EMPTIED, NEXT) == LEFT && Deleted(EMPTIED) == {KID}
  {
    hide Has, FindNode, Paths, KeyAt, Where;
    var t1 := SyncSubComponents(EMPTIED, NEXT);
    assert Link(CLEARER.value.value).fields == CLEARED;
    assert t1.kids == map[];
    assert Phantoms(EMPTIED) == {} by {
      assert SyncPhantoms(CLEARED["a"], "a", EMPTIED) == {};
    }
    forall k ensures k in KeysOfFate(EMPTIED, Gone) <==> k == KID {
      HouseholdPaths(CLEARER, RESET_NODE, k.path);
      EmptiedFates();
    }
  }

  lemma EmptiedFates()
    ensures Where(EMPTIED, []) != Gone && Where(EMPTIED, ["a"]) == Gone
  {
    assert KidFate(EMPTIED, "a") == Gone;
  }

  lemma LeftPaths(p: Path)
    ensures Has(LEFT, p) <==> p == []
    ensures Flat(LEFT) == map[[] := LEFT.item] && ItemAt(LEFT, []) == LEFT.item
  {
    assert Paths(LEFT) == {[]};
  }

  lemma EmptiedIsPrepared(s: State)
    requires s.root == EMPTIED
    ensures Prepared(s, NEXT, LEFT)
  {
    hide Has, FindNode, Deleted, SyncSubComponents, Flat;
    KidIsDeleted();
    assert PathEncoder.Encodable(KID.path);
    forall p | Has(LEFT, p)
      ensures ItemAt(LEFT, p).state != NeedSyncStructure && ResolvedItem(LEFT, p, ItemAt(LEFT, p), {})
    {
      LeftPaths(p);
      assert SettledFields(p, CLEARED, {}) == CLEARED;
    }
  }

  lemma LeftIsHandled()
    ensures Handled(CLOSING, LAST_RUN)
    ensures forall p :: p in Flat(LEFT) ==> Ready(Flat(LEFT)[p], p, NEXT)
  {
    hide Flat, Has, FindNode, Handled;
    LeftPaths([]);
    var after := Serialized(LEFT.item, NEXT);
    assert NewsFor(after.value, CLOSING.news) == [] && TaskedAttributes(after, CLOSING, 1) == after.ser.value.attrs;
    IdleRun(CLOSING, LAST_RUN);
  }

  /** An active transaction that refreshes tasks and then deletes the node reports its key both ways. */
  lemma ClearedRefreshOverlaps()
    ensures Tracks(HOUSED.stored, HOUSED.s, NEXT)
    ensures var w := Tx.After(HOUSED, [Tx.RefreshAll, Tx.Mutate(EMPTIED)]);
      var m := ReturnedMutation(w.s, CLOSING, LAST_RUN);
      && Tx.AllowedRun(HOUSED, [Tx.RefreshAll, Tx.Mutate(EMPTIED)]) && GoodRun(w.s, CLOSING, LAST_RUN)
      && KID in m.updated && KID in m.deleted
  {
    hide Steady, TracksAt, Tx.Refreshed, Tx.Mutates, Prepared, Handled, Ready, Flat, ReturnedMutation, Has, FindNode,
         Deleted, Serialization, KeyAt, GoodRun, Resets;
    HouseIsTracked();
    HouseIsEmptied();
    var actions := [Tx.RefreshAll, Tx.Mutate(EMPTIED)];
    assert actions[1..] == [Tx.Mutate(EMPTIED)] && actions[1..][1..] == [];
    var w1 := Tx.Do(HOUSED, Tx.RefreshAll);
    var w := Tx.Do(w1, Tx.Mutate(EMPTIED));
    assert Tx.After(HOUSED, actions) == Tx.After(w1, actions[1..]) == w;
    assert Tx.Along(w1, actions[1..], Tx.Allowed);
    EmptiedIsPrepared(w.s);
    LeftIsHandled();
    GoodRunFrom(w.s, CLOSING, LAST_RUN);
    HouseholdPaths(HOLDER, OLD_NODE, KID.path);
    KidIsReset();
    KidIsDeleted();
    Tx.ClearedRefreshIsReportedTwice(HOUSED, EMPTIED, CLOSING, LAST_RUN, KID);
  }
}
