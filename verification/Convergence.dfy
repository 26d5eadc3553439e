/** Replicas end up with the source's nodes, whatever the order in which changes are applied. */
module Convergence {
  import opened Wrappers
  import opened Versions
  import opened Tasks
  import opened TaskLists
  import opened Trees
  import opened StructureSync
  import opened Transactions
  import opened Engine
  import opened Persistence
  import opened Replication
  import opened PureTimers
  import Tx = TransactionRuns

  /** The serialized nodes of a tree, by path. */
  function ContentsOf(nodes: map<Path, Item>): Updates {
    map p | p in nodes && nodes[p].ser.Some? :: nodes[p].ser.value
  }

  function Contents(t: Tree): Updates {
    ContentsOf(Flat(t))
  }

  lemma ContentsAt(t: Tree, p: Path)
    ensures p in Contents(t) <==> Has(t, p) && ItemAt(t, p).ser.Some?
    ensures p in Contents(t) ==> ItemAt(t, p).ser == Some(Contents(t)[p])
  {
    hide Has, FindNode;
    assert Has(t, p) ==> p in Flat(t) && Flat(t)[p] == ItemAt(t, p);
  }

  /** The tree has the given nodes, with the same replicated content. */
  ghost predicate Mirrors(t: Tree, store: Updates) {
    forall q :: MirrorsAt(t, store, q)
  }

  ghost predicate MirrorsAt(t: Tree, store: Updates, q: Path) {
    && (Has(t, q) <==> q in store)
    && (Has(t, q) && q in store ==> Holding(ItemAt(t, q), store[q]))
  }

  ghost predicate Holding(item: Item, ser: SerializedNode) {
    item.ser.Some? && Replicated(item.ser.value) == Replicated(ser)
  }

  /** The node may be replaced by `ser`: one version means one content, and shared tasks are the same. */
  ghost predicate Compatible(item: Item, ser: SerializedNode) {
    && item.ser.Some?
    && (if SameVersion(item, ser) then Holding(item, ser) else SamePayload(item.ser.value, ser))
  }

  /** A mutation that leads from the tree to the target. */
  ghost predicate Leads(t: Tree, d: set<Path>, u: Updates, target: Updates, q: Path) {
    && (q in u ==> q in target && u[q] == target[q] && (Has(t, q) ==> Compatible(ItemAt(t, q), u[q])))
    && (q in target && q !in u ==> Has(t, q) && !Hit(d, q) && Holding(ItemAt(t, q), target[q]))
    && (Has(t, q) && q !in target ==> q in d)
  }

  lemma LandsAt(t: Tree, t1: Tree, t2: Tree, d: set<Path>, u: Updates, target: Updates, q: Path)
    requires Removed(t, t1, d) && Applied(t1, t2, u, u.Keys)
    requires [] in target && PrefixClosed(target.Keys) && forall p :: Leads(t, d, u, target, p)
    ensures MirrorsAt(t2, target, q)
  {
    hide Has, FindNode, ResetSer, CarrySer, SamePayload, Replicated, SameVersion;
    assert RemovedAt(t, t1, d, q) && AppliedAt(t1, t2, u, u.Keys, q) && Leads(t, d, u, target, q);
    if p :| p in u && q <= p {
      assert Leads(t, d, u, target, p);
      PrefixIn(target.Keys, p, q);
    }
    if q in u {
      assert Covered(u.Keys, q);
      ResetIsReplicated(u[q]);
      if Has(t1, q) && !SameVersion(ItemAt(t1, q), u[q]) {
        CarryIsReplicated(ItemAt(t1, q).ser.value, u[q]);
      }
    }
  }

  /** Applying such a mutation, in any order, makes the tree mirror the target. */
  lemma MutationLands(t: Tree, t1: Tree, t2: Tree, d: set<Path>, u: Updates, target: Updates)
    requires Removed(t, t1, d) && Applied(t1, t2, u, u.Keys)
    requires [] in target && PrefixClosed(target.Keys) && forall p :: Leads(t, d, u, target, p)
    ensures Mirrors(t2, target)
  {
    forall q ensures MirrorsAt(t2, target, q) {
      LandsAt(t, t1, t2, d, u, target, q);
    }
  }

  // ---------------------------------------------------------- snapshots

  /** Every node is filled in and has been serialized. */
  ghost predicate Whole(t: Tree) {
    forall p :: Has(t, p) ==> ItemAt(t, p).ser.Some? && Less(ZERO, ItemAt(t, p).ser.value.last)
  }

  /**
    A shared path that comes as another kind of child is deleted with all below it. What the snapshot
    does not send again is what has the version it had, under the key it had.
   */
  ghost predicate Resent(t: Tree, incoming: Updates, items: set<Path>) {
    forall p, q :: Has(t, p) && p in incoming && !SameKind(t, items, p) && p <= q ==> !Skipped(t, incoming, items, q)
  }

  ghost predicate Skipped(t: Tree, incoming: Updates, items: set<Path>, q: Path) {
    q in incoming && Has(t, q) && SameKind(t, items, q) && SameVersion(ItemAt(t, q), incoming[q])
  }

  /**
    Applying a snapshot leaves exactly its paths, with its content, for every order of the updates, if
    and only if everything below a path that changed its kind is sent again.
   */
  lemma SnapshotLandsIff(t: Tree, t1: Tree, t2: Tree, incoming: Updates, items: set<Path>)
    requires Whole(t) && [] in incoming && PrefixClosed(incoming.Keys)
    requires forall p :: Has(t, p) && p in incoming ==> Compatible(ItemAt(t, p), incoming[p])
    requires Removed(t, t1, SnapshotDeletes(t, incoming, items))
    requires Applied(t1, t2, SnapshotUpdates(t, incoming, items), SnapshotUpdates(t, incoming, items).Keys)
    ensures Mirrors(t2, incoming) <==> Resent(t, incoming, items)
  {
    hide Whole, PrefixClosed, Compatible, Removed, Applied, SnapshotDeletes, SnapshotUpdates, Mirrors, Leads, Has,
         FindNode, SameKind, Skipped;
    if Resent(t, incoming, items) {
      forall p ensures Leads(t, SnapshotDeletes(t, incoming, items), SnapshotUpdates(t, incoming, items), incoming, p) {
        SnapshotLeads(t, incoming, items, p);
      }
      MutationLands(t, t1, t2, SnapshotDeletes(t, incoming, items), SnapshotUpdates(t, incoming, items), incoming);
    } else {
      var p, q :| Has(t, p) && p in incoming && !SameKind(t, items, p) && p <= q && Skipped(t, incoming, items, q);
      SkippedIsGone(t, t1, t2, incoming, items, p, q);
    }
  }

  lemma SkippedIsGone(t: Tree, t1: Tree, t2: Tree, incoming: Updates, items: set<Path>, p: Path, q: Path)
    requires Whole(t) && Removed(t, t1, SnapshotDeletes(t, incoming, items))
    requires Applied(t1, t2, SnapshotUpdates(t, incoming, items), SnapshotUpdates(t, incoming, items).Keys)
    requires Has(t, p) && p in incoming && !SameKind(t, items, p) && p <= q && Skipped(t, incoming, items, q)
    ensures !Mirrors(t2, incoming)
  {
    hide Has, FindNode, SameKind, Snapshot, Whole;
    SnapshotHas(t, p);
    SnapshotHas(t, q);
    var d, u := SnapshotDeletes(t, incoming, items), SnapshotUpdates(t, incoming, items);
    assert p in d && q !in u && q != [];
    assert RemovedAt(t, t1, d, q) && AppliedAt(t1, t2, u, u.Keys, q);
    assert !MirrorsAt(t2, incoming, q);
  }

  lemma SnapshotHas(t: Tree, p: Path)
    requires Whole(t)
    ensures Has(t, p) <==> p in Snapshot(t, ZERO)
    ensures Has(t, p) ==> ItemAt(t, p).ser == Some(Snapshot(t, ZERO)[p])
  {
    hide Has, FindNode, Snapshot;
  }

  lemma SnapshotLeads(t: Tree, incoming: Updates, items: set<Path>, p: Path)
    requires Whole(t) && PrefixClosed(incoming.Keys) && Resent(t, incoming, items)
    requires forall p :: Has(t, p) && p in incoming ==> Compatible(ItemAt(t, p), incoming[p])
    ensures Leads(t, SnapshotDeletes(t, incoming, items), SnapshotUpdates(t, incoming, items), incoming, p)
  {
    hide FindNode, Has, Replicated, SamePayload, Snapshot, Compare, SameKind;
    SnapshotHas(t, p);
    if p in incoming && p !in SnapshotUpdates(t, incoming, items) {
      assert Skipped(t, incoming, items, p);
      forall r | r in SnapshotDeletes(t, incoming, items) ensures !(r <= p) {
        SnapshotHas(t, r);
        if r <= p {
          PrefixIn(incoming.Keys, p, r);
        }
      }
    }
  }

  /** Nodes sent as items are those whose parent is a collection. */
  ghost predicate Kinded(incoming: Updates, items: set<Path>) {
    forall p :: p in incoming ==>
      (p in items <==>
        |p| > 1 && p[..|p| - 1] in incoming && incoming[p[..|p| - 1]].attrs.CollectionAttributes?)
  }

  lemma MirrorsKind(t: Tree, incoming: Updates, items: set<Path>, p: Path)
    requires Mirrors(t, incoming) && Kinded(incoming, items) && p in incoming
    ensures SameKind(t, items, p)
  {
    hide Has, FindNode;
    if |p| > 1 {
      assert MirrorsAt(t, incoming, p[..|p| - 1]);
    }
  }

  /** A second time there is nothing to do. */
  lemma SnapshotTwice(t: Tree, incoming: Updates, items: set<Path>)
    requires Mirrors(t, incoming) && Kinded(incoming, items)
    requires forall p :: p in incoming ==> Less(ZERO, incoming[p].last)
    ensures SnapshotDeletes(t, incoming, items) == {} && SnapshotUpdates(t, incoming, items) == map[]
  {
    hide FindNode, Has, Snapshot, SameKind, Kinded;
    forall p | p in incoming
      ensures p in Snapshot(t, ZERO) && SameKind(t, items, p)
      ensures Compare(Snapshot(t, ZERO)[p].last, incoming[p].last) == 0
    {
      assert MirrorsAt(t, incoming, p);
      MirrorsKind(t, incoming, items, p);
    }
    forall p | p in Snapshot(t, ZERO) ensures p in incoming {
      assert MirrorsAt(t, incoming, p);
    }
  }

  // ------------------------------------------ incremental replication

  /** The other node lists this task, up to what is local to a cluster. */
  ghost predicate TaskKept(o: Order, x: Task, ser: SerializedNode) {
    exists y :: y in TasksOf(o, ser) && Portable(y) == Portable(x)
  }

  /**
    One transaction of the source, seen through its stored nodes: a node either carries the new
    transition or has the content it had, and a task either is stamped with it or was there.
   */
  ghost predicate StepAt(before: Updates, after: Updates, next: VT, p: Path) {
    p in after ==>
      && (after[p].last == next || (p in before && Replicated(after[p]) == Replicated(before[p])))
      && forall o, x :: x in TasksOf(o, after[p]) ==> x.vt == next || (p in before && TaskKept(o, x, before[p]))
  }

  /** The same over any number of transactions, all after `m`. */
  ghost predicate SinceAt(base: Updates, now: Updates, m: VT, p: Path) {
    p in now ==>
      && (Less(m, now[p].last) || (p in base && Replicated(now[p]) == Replicated(base[p])))
      && forall o, x :: x in TasksOf(o, now[p]) ==> Less(m, x.vt) || (p in base && TaskKept(o, x, base[p]))
  }

  ghost predicate SourceStep(before: Updates, after: Updates, next: VT) {
    forall p :: StepAt(before, after, next, p)
  }

  lemma SinceStep(base: Updates, now: Updates, after: Updates, m: VT, next: VT, p: Path)
    requires SinceAt(base, now, m, p) && StepAt(now, after, next, p) && Less(m, next)
    ensures SinceAt(base, after, m, p)
  {
    if p in after {
      forall o, x | x in TasksOf(o, after[p]) && !Less(m, x.vt) ensures p in base && TaskKept(o, x, base[p]) {
        var y :| y in TasksOf(o, now[p]) && Portable(y) == Portable(x);
        var z :| z in TasksOf(o, base[p]) && Portable(z) == Portable(y);
      }
    }
  }

  lemma SinceStart(base: Updates, m: VT, p: Path)
    ensures SinceAt(base, base, m, p)
  {
  }

  /** Nothing is newer than `m`, and lists are sorted. */
  ghost predicate Bounded(store: Updates, m: VT) {
    forall p :: p in store ==>
      && !Less(m, store[p].last) && SortedNode(store[p])
      && forall o, x :: x in TasksOf(o, store[p]) ==> !Less(m, x.vt)
  }

  function NewerThan(store: Updates, m: VT): Updates {
    map p | p in store && Compare(store[p].last, m) > 0 :: store[p]
  }

  lemma SnapshotIsNewer(t: Tree, m: VT)
    ensures Snapshot(t, m) == NewerThan(Contents(t), m)
  {
    hide Has, FindNode, Snapshot, Contents;
    forall p ensures (p in Snapshot(t, m) <==> p in NewerThan(Contents(t), m))
      && (p in Snapshot(t, m) ==> Snapshot(t, m)[p] == Contents(t)[p])
    {
      ContentsAt(t, p);
    }
  }

  /** Tasks the replica shares with the newer node are the same tasks. */
  lemma SharedTasksAgree(
    local: SerializedNode, base: SerializedNode, newer: SerializedNode, m: VT, o: Order, s: Task, t: Task)
    requires Replicated(local) == Replicated(base) && SortedNode(base)
    requires forall x :: x in TasksOf(o, base) ==> !Less(m, x.vt)
    requires forall x :: x in TasksOf(o, newer) ==> Less(m, x.vt) || TaskKept(o, x, base)
    requires s in TasksOf(o, local) && t in TasksOf(o, newer) && Cmp(o, s, t) == 0
    ensures s.data.bytes == t.data.bytes
  {
    var ls, bs := TasksOf(o, local), TasksOf(o, base);
    assert PortableTasks(ls) == PortableTasks(bs);
    var i :| 0 <= i < |ls| && ls[i] == s;
    assert PortableTasks(ls)[i] == PortableTasks(bs)[i];
    assert bs[i] in bs && Portable(bs[i]) == Portable(s);
    var y :| y in bs && Portable(y) == Portable(t);
    var j :| 0 <= j < |bs| && bs[j] == y;
    SameComparison(o, s, t, bs[i], bs[j]);
    assert i != j ==> Cmp(o, bs[i], bs[j]) == -1 || Cmp(o, bs[j], bs[i]) == -1;
    CmpOrder(o, bs[i], bs[j], bs[j]);
  }

  lemma SameComparison(o: Order, s: Task, t: Task, s': Task, t': Task)
    requires Portable(s) == Portable(s') && Portable(t) == Portable(t')
    ensures Cmp(o, s, t) == Cmp(o, s', t')
  {
  }

  lemma IncrementLeads(replica: Tree, base: Updates, now: Updates, m: VT, q: Path)
    requires Mirrors(replica, base) && Bounded(base, m) && PrefixClosed(now.Keys)
    requires forall p :: SinceAt(base, now, m, p)
    ensures Leads(replica, base.Keys - now.Keys, NewerThan(now, m), now, q)
  {
    hide Has, FindNode, Replicated, TasksOf, Cmp, SortedNode;
    assert MirrorsAt(replica, base, q) && SinceAt(base, now, m, q);
    if q in now {
      forall r | r in base.Keys - now.Keys ensures !(r <= q) {
        if r <= q {
          PrefixIn(now.Keys, q, r);
        }
      }
      if Has(replica, q) && Less(m, now[q].last) {
        var local := ItemAt(replica, q).ser.value;
        SameLast(local, base[q]);
        forall o, s, t | s in TasksOf(o, local) && t in TasksOf(o, now[q]) && Cmp(o, s, t) == 0
          ensures s.data.bytes == t.data.bytes
        {
          SharedTasksAgree(local, base[q], now[q], m, o, s, t);
        }
      }
    }
  }

  lemma SameLast(a: SerializedNode, b: SerializedNode)
    requires Replicated(a) == Replicated(b)
    ensures a.last == b.last
  {
  }

  /** The nodes updated since `m` and the deletions of the paths gone since then bring a mirror of `base` up to date. */
  lemma IncrementLands(base: Updates, m: VT, source: Tree, replica: Tree, t1: Tree, t2: Tree)
    requires Bounded(base, m) && Mirrors(replica, base) && forall p :: SinceAt(base, Contents(source), m, p)
    requires [] in Contents(source) && PrefixClosed(Contents(source).Keys)
    requires Removed(replica, t1, base.Keys - Contents(source).Keys)
    requires Applied(t1, t2, Snapshot(source, m), Snapshot(source, m).Keys)
    ensures Mirrors(t2, Contents(source))
  {
    hide Mirrors, Removed, Applied, Leads, SinceAt, Snapshot, NewerThan, Contents, Bounded;
    var now := Contents(source);
    SnapshotIsNewer(source, m);
    forall p ensures Leads(replica, base.Keys - now.Keys, NewerThan(now, m), now, p) {
      IncrementLeads(replica, base, now, m, p);
    }
    MutationLands(replica, t1, t2, base.Keys - now.Keys, NewerThan(now, m), now);
  }

  // ------------------------------------- a close is such a transaction

  /** Marking tasks changes nothing that is replicated. */
  lemma MarkedIsPortable(tasks: seq<Task>)
    ensures PortableTasks(Marked(tasks)) == PortableTasks(tasks)
  {
    hide Marked;
    forall i | 0 <= i < |tasks| ensures Portable(Marked(tasks)[i]) == Portable(tasks[i]) {
    }
  }

  lemma PortableMember(a: seq<Task>, b: seq<Task>, x: Task)
    requires PortableTasks(a) == PortableTasks(b) && x in a
    ensures exists y :: y in b && Portable(y) == Portable(x)
  {
    var i :| 0 <= i < |a| && a[i] == x;
    assert PortableTasks(a)[i] == PortableTasks(b)[i] && b[i] in b;
  }

  /** The pure list of a closed node holds old tasks and newly stamped ones. */
  lemma TaskedMember(item: Item, c: Closing, offset: int, o: Order, x: Task)
    requires IsComponent(item)
    requires x in (if o == BySideEffect then TaskedAttributes(item, c, offset).sideEffects
                   else TaskedAttributes(item, c, offset).pures)
    ensures x.vt == c.next || x in TasksOf(o, item.ser.value)
  {
    hide Prune, Stamped, SortPure;
    if UpdatedNow(item, c.next) {
      var old', new' := OnTask(c.validate, item.value), OnNew(c.validate, item.value);
      var news := NewsFor(item.value, c.news);
      if o == ByPure {
        var a, b := Prune(item.ser.value.attrs.pures, old'), Stamped(true, news, new', c.next, offset);
        if b != [] {
          assert x in multiset(SortPure(a + b));
          assert x in multiset(a + b);
        }
        assert x in a || x in b;
      } else {
        var a, b := Prune(item.ser.value.attrs.sideEffects, old'), Stamped(false, news, new', c.next, offset);
        assert x in a || x in b;
      }
    }
  }

  lemma ClosedTasks(item: Item, c: Closing, offset: int, o: Order, x: Task)
    requires item.ser.Some? && ClosedItem(item, c, offset).ser.Some?
    requires x in TasksOf(o, ClosedItem(item, c, offset).ser.value)
    ensures x.vt == c.next || TaskKept(o, x, item.ser.value)
  {
    hide TaskedAttributes, Marked;
    if IsComponent(item) {
      var attrs := TaskedAttributes(item, c, offset);
      if o == BySideEffect {
        MarkedIsPortable(attrs.sideEffects);
        PortableMember(Marked(attrs.sideEffects), attrs.sideEffects, x);
        var y :| y in attrs.sideEffects && Portable(y) == Portable(x);
        TaskedMember(item, c, offset, o, y);
      } else {
        TaskedMember(item, c, offset, o, x);
      }
    }
  }

  lemma ClosedIsReplicated(item: Item, c: Closing, offset: int)
    requires item.ser.Some? && Less(item.ser.value.last, c.next)
    ensures ClosedItem(item, c, offset).ser.Some?
    ensures Replicated(ClosedItem(item, c, offset).ser.value) == Replicated(item.ser.value)
  {
    hide Marked;
    if IsComponent(item) {
      MarkedIsPortable(item.ser.value.attrs.sideEffects);
    }
  }

  /** The status of the first pure task is local too. */
  lemma FirstMarkIsLocal(item: Item)
    requires PuresOf(item) != []
    ensures MarkFirstPure(item).ser.Some? && Replicated(MarkFirstPure(item).ser.value) == Replicated(item.ser.value)
    ensures MarkFirstPure(item).state == item.state
  {
    var pures := item.ser.value.attrs.pures;
    assert PortableTasks(pures[0 := pures[0].(status := Created)]) == PortableTasks(pures);
  }

  lemma FinalIsClosed(run: Run, c: Closing, p: Path)
    requires Has(run.resolved, p) && p in run.offsets
    ensures p in FinalNodes(run, c)
    ensures var closed := ClosedItem(Serialized(ItemAt(run.resolved, p), c.next), c, run.offsets[p]);
      var final := FinalNodes(run, c)[p];
      closed.ser.Some? ==> final.ser.Some? && Replicated(final.ser.value) == Replicated(closed.ser.value)
  {
    hide ClosedItem, Serialized, Has, FindNode, Replicated, MarkFirstPure;
    var closed := ClosedItem(Serialized(ItemAt(run.resolved, p), c.next), c, run.offsets[p]);
    assert ClosedNodes(run, c)[p] == closed;
    if PuresOf(closed) != [] {
      FirstMarkIsLocal(closed);
    }
  }

  lemma ReplicatedTasks(a: SerializedNode, b: SerializedNode, o: Order, x: Task)
    requires Replicated(a) == Replicated(b) && x in TasksOf(o, a)
    ensures TaskKept(o, x, b)
  {
    assert PortableTasks(TasksOf(o, a)) == PortableTasks(TasksOf(o, b));
    PortableMember(TasksOf(o, a), TasksOf(o, b), x);
  }

  lemma SerializedTasks(item: Item, p: Path, next: VT, o: Order)
    requires item.ser.Some? && Ready(item, p, next)
    ensures Serialized(item, next).ser.Some?
    ensures TasksOf(o, Serialized(item, next).ser.value) == TasksOf(o, item.ser.value)
  {
  }

  lemma CloseStepAt(s: State, c: Closing, run: Run, p: Path)
    requires Steady(s, c.next) && GoodRun(s, c, run)
    ensures StepAt(Contents(s.root), ContentsOf(FinalNodes(run, c)), c.next, p)
  {
    hide SyncSubComponents, GoodRun, FinalNodes, Serialized, ClosedItem, Has, FindNode, Where, Ready, Dirty, Replicated,
         TasksOf, TaskKept, Compare, AllCreated, CreatedFirst, SideEffectsOf, Contents;
    var before, after := Contents(s.root), ContentsOf(FinalNodes(run, c));
    if p in after {
      RunPaths(s, c, run, p);
      ContentsAt(s.root, p);
      SyncPath(s.root, c.next, p);
      SyncedNode(s, c.next, p);
      var item := ItemAt(run.resolved, p);
      SerializedFacts(item, p, c.next);
      var ser := Serialized(item, c.next);
      var closed := ClosedItem(ser, c, run.offsets[p]);
      ClosedFacts(ser, c, run.offsets[p]);
      FinalIsClosed(run, c, p);
      SameLast(after[p], closed.ser.value);
      if item.state != NeedSerialize {
        ClosedIsReplicated(ser, c, run.offsets[p]);
        SettledAt(s, c, run, p);
      }
      forall o, x | x in TasksOf(o, after[p]) ensures x.vt == c.next || (p in before && TaskKept(o, x, before[p])) {
        ReplicatedTasks(after[p], closed.ser.value, o, x);
        var y := KeptTask(o, x, closed.ser.value);
        ClosedTasks(ser, c, run.offsets[p], o, y);
        if y.vt != c.next {
          var z := KeptTask(o, y, ser.ser.value);
          SerializedTasks(item, p, c.next, o);
          OldTask(s, c.next, p, o, z);
          KeptIs(o, x, z, before[p]);
        }
      }
    }
  }

  lemma KeptTask(o: Order, x: Task, ser: SerializedNode) returns (y: Task)
    requires TaskKept(o, x, ser)
    ensures y in TasksOf(o, ser) && Portable(y) == Portable(x)
  {
    y :| y in TasksOf(o, ser) && Portable(y) == Portable(x);
  }

  lemma KeptIs(o: Order, x: Task, z: Task, ser: SerializedNode)
    requires z in TasksOf(o, ser) && Portable(z) == Portable(x)
    ensures TaskKept(o, x, ser)
  {
  }

  /** A node of the synchronised tree has a serialized form, its old one unless it is new. */
  lemma SyncedNode(s: State, next: VT, p: Path)
    requires Steady(s, next) && Has(SyncSubComponents(s.root, next), p)
    ensures var item := ItemAt(SyncSubComponents(s.root, next), p);
      && item.ser.Some? && Less(item.ser.value.last, next)
      && (item.state != NeedSerialize && item.state != NeedSyncStructure ==>
            Has(s.root, p) && item.ser == ItemAt(s.root, p).ser)
  {
    hide SyncSubComponents, Has, FindNode, Where;
    if Has(s.root, p) {
      SteadyPath(s, next, p);
    }
    SyncPath(s.root, next, p);
  }

  /** A task that was in a node before the close was in the stored node. */
  lemma OldTask(s: State, next: VT, p: Path, o: Order, x: Task)
    requires Steady(s, next) && Has(SyncSubComponents(s.root, next), p)
    requires ItemAt(SyncSubComponents(s.root, next), p).ser.Some?
    requires x in TasksOf(o, ItemAt(SyncSubComponents(s.root, next), p).ser.value)
    ensures Has(s.root, p) && ItemAt(s.root, p).ser.Some? && x in TasksOf(o, ItemAt(s.root, p).ser.value)
  {
    hide SyncSubComponents, Has, FindNode, Where;
    if Has(s.root, p) {
      SteadyPath(s, next, p);
    }
    SyncPath(s.root, next, p);
  }

  /** Every close of the source is a step of the run that incremental replication follows. */
  lemma CloseIsSourceStep(s: State, c: Closing, run: Run)
    requires Steady(s, c.next) && GoodRun(s, c, run)
    ensures SourceStep(Contents(s.root), ContentsOf(FinalNodes(run, c)), c.next)
  {
    forall p ensures StepAt(Contents(s.root), ContentsOf(FinalNodes(run, c)), c.next, p) {
      CloseStepAt(s, c, run, p);
    }
  }

  // --------------------------------- whole transactions of the source

  /** Within a transaction: clean nodes have the stored content, and no task has appeared yet. */
  ghost predicate OriginAt(base: Updates, t: Tree, p: Path) {
    Has(t, p) ==> OriginNode(base, p, ItemAt(t, p))
  }

  ghost predicate OriginNode(base: Updates, p: Path, item: Item) {
    && item.ser.Some?
    && (Clean(item) ==> p in base && Replicated(item.ser.value) == Replicated(base[p]))
    && forall o, x :: x in TasksOf(o, item.ser.value) ==> p in base && TaskKept(o, x, base[p])
  }

  ghost predicate Origin(base: Updates, t: Tree) {
    forall p :: OriginAt(base, t, p)
  }

  lemma MutateOrigin(base: Updates, t: Tree, t': Tree)
    requires Origin(base, t) && Tx.Mutates(t, t')
    ensures Origin(base, t')
  {
    hide Has, FindNode, TaskKept, TasksOf, Replicated;
    forall p ensures OriginAt(base, t', p) {
      assert OriginAt(base, t, p) && Tx.MutatesAt(t, t', p);
    }
  }

  lemma SyncOrigin(base: Updates, t: Tree, next: VT)
    requires Origin(base, t)
    ensures Origin(base, SyncSubComponents(t, next))
  {
    hide Has, FindNode, TaskKept, Replicated, Where, SyncSubComponents;
    forall p ensures OriginAt(base, SyncSubComponents(t, next), p) {
      assert OriginAt(base, t, p);
      SyncPath(t, next, p);
    }
  }

  lemma ResetOrigin(base: Updates, p: Path, item: Item)
    requires OriginNode(base, p, item)
    ensures OriginNode(base, p, ResetItem(item))
  {
    hide TaskKept, Replicated;
    if IsComponent(item) {
      var item' := ResetItem(item);
      ResetIsReplicated(item.ser.value);
      assert item'.ser.value == ResetSer(item.ser.value);
      forall o, x | x in TasksOf(o, item'.ser.value) ensures p in base && TaskKept(o, x, base[p]) {
        ReplicatedTasks(item'.ser.value, item.ser.value, o, x);
        var y := KeptTask(o, x, item.ser.value);
        var z := KeptTask(o, y, base[p]);
        KeptIs(o, x, z, base[p]);
      }
    }
  }

  lemma RefreshOrigin(base: Updates, w: Tx.World)
    requires Origin(base, w.s.root)
    ensures Origin(base, Tx.Refreshed(w.s).root)
  {
    hide OriginNode, Has, FindNode, ResetItem, Tx.Refreshed;
    forall p ensures OriginAt(base, Tx.Refreshed(w.s).root, p) {
      assert OriginAt(base, w.s.root, p);
      Tx.RefreshedAt(w.s, p);
      if Has(w.s.root, p) {
        ResetOrigin(base, p, ItemAt(w.s.root, p));
      }
    }
  }

  /** The tree a close leaves is made of the final nodes. */
  lemma ClosedContents(w: Tx.World, c: Closing, run: Run, after: VT)
    requires Tx.Allowed(w, Tx.CloseTx(c, run, after))
    ensures Contents(Tx.Do(w, Tx.CloseTx(c, run, after)).s.root) == ContentsOf(FinalNodes(run, c))
  {
    hide GoodRun, FinalNodes, ReturnedMutation, Apply, Regrow, ContentsOf, Flat;
    Tx.FinalIsWhole(w.s, c, run);
    FlatRegrow(run.resolved, FinalNodes(run, c));
  }

  lemma CloseFromOrigin(base: Updates, w: Tx.World, c: Closing, run: Run, after: VT)
    requires Origin(base, w.s.root) && Steady(w.s, w.next) && Tx.Allowed(w, Tx.CloseTx(c, run, after))
    ensures SourceStep(base, Contents(Tx.Do(w, Tx.CloseTx(c, run, after)).s.root), w.next)
  {
    hide GoodRun, FinalNodes, ReturnedMutation, Apply, Steady, Replicated, TasksOf, TaskKept, Regrow,
         Contents, Has, FindNode;
    var mid, end := Contents(w.s.root), ContentsOf(FinalNodes(run, c));
    ClosedContents(w, c, run, after);
    forall p ensures StepAt(base, end, w.next, p) {
      if p in end {
        CloseStepAt(w.s, c, run, p);
        CleanStays(w.s, c, run, p);
        assert OriginAt(base, w.s.root, p);
        ContentsAt(w.s.root, p);
        forall o, x | x in TasksOf(o, end[p]) && x.vt != w.next ensures p in base && TaskKept(o, x, base[p]) {
          var y := KeptTask(o, x, mid[p]);
          var z := KeptTask(o, y, base[p]);
          KeptIs(o, x, z, base[p]);
        }
      }
    }
  }

  /** A node that does not carry the new transition was clean and is as it was. */
  lemma CleanStays(s: State, c: Closing, run: Run, p: Path)
    requires Steady(s, c.next) && GoodRun(s, c, run) && p in ContentsOf(FinalNodes(run, c))
    ensures ContentsOf(FinalNodes(run, c))[p].last == c.next || (Has(s.root, p) && Clean(ItemAt(s.root, p)))
  {
    hide SyncSubComponents, GoodRun, FinalNodes, Has, FindNode, Where, Ready, Dirty, Flat, Compare, AllCreated,
         CreatedFirst, SideEffectsOf, Deleted, Orphans, KeyAt;
    RunPaths(s, c, run, p);
    SyncedAt(s, c.next, KeyAt(SyncSubComponents(s.root, c.next), p));
    SettledAt(s, c, run, p);
    FinalAt(s, c, run, p);
  }

  ghost predicate OneTransaction(actions: seq<Tx.Action>) {
    && actions != [] && actions[|actions| - 1].CloseTx?
    && forall i :: 0 <= i < |actions| - 1 ==> !actions[i].CloseTx? && !actions[i].Replicate?
  }

  /**
    A whole transaction of the source, with whatever changes, synchronisations and refreshes it is
    made of, is one step of the run incremental replication follows.
   */
  lemma {:induction false} TransactionIsSourceStep(base: Updates, w: Tx.World, actions: seq<Tx.Action>)
    requires Origin(base, w.s.root) && Steady(w.s, w.next)
    requires OneTransaction(actions) && Tx.AllowedRun(w, actions)
    ensures SourceStep(base, Contents(Tx.After(w, actions).s.root), w.next) && Less(w.next, Tx.After(w, actions).next)
    decreases |actions|
  {
    hide Steady, Origin, SourceStep, Contents, GoodRun, Tx.Mutates, Tx.Delivers, Less;
    var a := actions[0];
    if |actions| == 1 {
      CloseFromOrigin(base, w, a.c, a.run, a.after);
      assert Tx.After(w, actions) == Tx.Do(w, a);
    } else {
      var w1 := Tx.Do(w, a);
      Tx.ActionKeeps(w, a);
      ActionOrigin(base, w, a);
      TransactionIsSourceStep(base, w1, actions[1..]);
    }
  }

  lemma ActionOrigin(base: Updates, w: Tx.World, a: Tx.Action)
    requires Origin(base, w.s.root) && Tx.Allowed(w, a) && !a.CloseTx? && !a.Replicate?
    ensures Origin(base, Tx.Do(w, a).s.root) && Tx.Do(w, a).next == w.next
  {
    hide Origin, Tx.Refreshed, SyncSubComponents;
    match a
    case Mutate(root) => MutateOrigin(base, w.s.root, root);
    case SyncNow => SyncOrigin(base, w.s.root, w.next);
    case RefreshAll => RefreshOrigin(base, w);
  }

  /** A transaction starts from the tree it finds. */
  lemma StartsAtOrigin(s: State, next: VT)
    requires Steady(s, next)
    ensures Origin(Contents(s.root), s.root)
  {
    hide FindNode, Has, Replicated, TasksOf, Contents;
    forall p ensures OriginAt(Contents(s.root), s.root, p) {
      if Has(s.root, p) {
        SteadyPath(s, next, p);
        ContentsAt(s.root, p);
      }
    }
  }

  // ------------------------------------------- any number of transactions

  /** Transactions one after the other. */
  ghost predicate AllowedTransactions(w: Tx.World, txs: seq<seq<Tx.Action>>)
    decreases |txs|
  {
    txs == [] ||
    (OneTransaction(txs[0]) && Tx.AllowedRun(w, txs[0]) && AllowedTransactions(Tx.After(w, txs[0]), txs[1..]))
  }

  ghost function AfterTransactions(w: Tx.World, txs: seq<seq<Tx.Action>>): Tx.World
    decreases |txs|
  {
    if txs == [] then w else AfterTransactions(Tx.After(w, txs[0]), txs[1..])
  }

  /** Whatever the source did since `m` shows in the versions and tasks of its nodes. */
  lemma {:induction false} SinceTransactions(base: Updates, w: Tx.World, txs: seq<seq<Tx.Action>>, m: VT)
    requires Steady(w.s, w.next) && AllowedTransactions(w, txs) && Less(m, w.next)
    requires forall p :: SinceAt(base, Contents(w.s.root), m, p)
    ensures var w' := AfterTransactions(w, txs);
      Steady(w'.s, w'.next) && forall p :: SinceAt(base, Contents(w'.s.root), m, p)
    decreases |txs|
  {
    hide Steady, SinceAt, StepAt, Contents, Tx.AllowedRun, Tx.After, Origin, OneTransaction, Less;
    if txs == [] {
    } else {
      var w1 := Tx.After(w, txs[0]);
      StartsAtOrigin(w.s, w.next);
      TransactionIsSourceStep(Contents(w.s.root), w, txs[0]);
      Tx.EveryRunIsSteady(w, txs[0]);
      LessChain(m, w.next, w1.next);
      forall p ensures SinceAt(base, Contents(w1.s.root), m, p) {
        assert StepAt(Contents(w.s.root), Contents(w1.s.root), w.next, p);
        SinceStep(base, Contents(w.s.root), Contents(w1.s.root), m, w.next, p);
      }
      SinceTransactions(base, w1, txs[1..], m);
    }
  }

  lemma LessChain(a: VT, b: VT, c: VT)
    requires Less(a, b) && Less(b, c)
    ensures Less(a, c)
  {
  }

  /** After a close nothing is newer than the transition it was given. */
  lemma ClosedIsBounded(w: Tx.World, c: Closing, run: Run, after: VT)
    requires Steady(w.s, w.next) && Dated(w.s.root, w.next)
    requires Tx.Allowed(w, Tx.CloseTx(c, run, after))
    ensures Bounded(Contents(Tx.Do(w, Tx.CloseTx(c, run, after)).s.root), w.next)
  {
    hide GoodRun, FinalNodes, Steady, Dated, Contents, SortedNode, TasksOf, Less, Apply,
         ReturnedMutation, Regrow;
    ClosedContents(w, c, run, after);
    var end := ContentsOf(FinalNodes(run, c));
    forall p | p in end
      ensures !Less(w.next, end[p].last) && SortedNode(end[p])
      ensures forall o, x :: x in TasksOf(o, end[p]) ==> !Less(w.next, x.vt)
    {
      ClosedNodeIsBounded(w, c, run, after, p);
    }
  }

  lemma ClosedNodeIsBounded(w: Tx.World, c: Closing, run: Run, after: VT, p: Path)
    requires Steady(w.s, w.next) && Dated(w.s.root, w.next)
    requires Tx.Allowed(w, Tx.CloseTx(c, run, after)) && p in ContentsOf(FinalNodes(run, c))
    ensures var ser := ContentsOf(FinalNodes(run, c))[p];
      && !Less(w.next, ser.last) && SortedNode(ser)
      && forall o, x :: x in TasksOf(o, ser) ==> !Less(w.next, x.vt)
  {
    hide GoodRun, FinalNodes, Steady, Dated, Contents, SortedNode, TasksOf, AllCreated, SideEffectsOf,
         Logged, Replicated, Has, FindNode;
    Tx.FinalIsClean(w, c, run, p);
    Tx.FinalIsWhole(w.s, c, run);
    var log := LogOfTree(w.s.root, w.next);
    FinalTimer(w, c, run, log, after, p);
    forall o, x | x in TasksOf(o, ContentsOf(FinalNodes(run, c))[p]) ensures !Less(w.next, x.vt) {
      ClosedTaskIsBounded(w, c, run, after, p, o, x);
    }
  }

  lemma ClosedTaskIsBounded(
    w: Tx.World, c: Closing, run: Run, after: VT, p: Path, o: Order, x: Task)
    requires Steady(w.s, w.next) && Dated(w.s.root, w.next)
    requires Tx.Allowed(w, Tx.CloseTx(c, run, after)) && p in ContentsOf(FinalNodes(run, c))
    requires x in TasksOf(o, ContentsOf(FinalNodes(run, c))[p])
    ensures !Less(w.next, x.vt)
  {
    hide GoodRun, FinalNodes, Steady, Dated, Contents, SortedNode, TasksOf, Logged, Replicated, Has,
         FindNode;
    CloseStepAt(w.s, c, run, p);
    if x.vt != w.next {
      var y := KeptTask(o, x, Contents(w.s.root)[p]);
      ContentsAt(w.s.root, p);
      OlderTask(w.s.root, w.next, p, o, y);
    }
  }

  lemma OlderTask(t: Tree, next: VT, p: Path, o: Order, y: Task)
    requires Dated(t, next) && Has(t, p) && ItemAt(t, p).ser.Some? && y in TasksOf(o, ItemAt(t, p).ser.value)
    ensures Less(y.vt, next)
  {
    hide Has, FindNode;
    assert DatedAt(t, next, p);
  }

  /** A steady tree has a serialized form for every node. */
  lemma ContentsAreWhole(s: State, next: VT)
    requires Steady(s, next)
    ensures [] in Contents(s.root) && PrefixClosed(Contents(s.root).Keys)
  {
    hide FindNode, Contents, Has;
    forall p ensures Has(s.root, p) <==> p in Contents(s.root) {
      ContentsAt(s.root, p);
      if Has(s.root, p) {
        SteadyPath(s, next, p);
      }
    }
    RootIsThere(s.root);
    forall p, n | p in Contents(s.root) && 0 <= n < |p| ensures p[..n] in Contents(s.root) {
      TreeIsPrefixClosed(s.root, p, n);
    }
  }

  lemma RootIsThere(t: Tree)
    ensures Has(t, [])
  {
  }

  /**
    Incremental replication converges. The source closes a transaction at `m`, a replica mirrors it,
    and the source goes on for any number of transactions. Applying the nodes updated since `m` and
    deleting the paths gone since then, in any order, makes the replica mirror the source again.
   */
  lemma IncrementalReplicationConverges(
    w: Tx.World, c: Closing, run: Run, after: VT, txs: seq<seq<Tx.Action>>,
    replica: Tree, t1: Tree, t2: Tree)
    requires Steady(w.s, w.next) && Dated(w.s.root, w.next)
    requires Tx.Allowed(w, Tx.CloseTx(c, run, after))
    requires AllowedTransactions(Tx.Do(w, Tx.CloseTx(c, run, after)), txs)
    requires var w1 := Tx.Do(w, Tx.CloseTx(c, run, after));
      var source := AfterTransactions(w1, txs).s.root;
      && Mirrors(replica, Contents(w1.s.root))
      && Removed(replica, t1, Contents(w1.s.root).Keys - Contents(source).Keys)
      && Applied(t1, t2, Snapshot(source, w.next), Snapshot(source, w.next).Keys)
    ensures var w1 := Tx.Do(w, Tx.CloseTx(c, run, after));
      Mirrors(t2, Contents(AfterTransactions(w1, txs).s.root))
  {
    hide Steady, Dated, Mirrors, Removed, Applied, Contents, Snapshot, SinceAt, Bounded, AllowedTransactions,
         AfterTransactions, Tx.Do, GoodRun;
    var w1 := Tx.Do(w, Tx.CloseTx(c, run, after));
    var base, w2 := Contents(w1.s.root), AfterTransactions(w1, txs);
    Tx.ActionKeeps(w, Tx.CloseTx(c, run, after));
    ClosedIsBounded(w, c, run, after);
    CloseSetsNext(w, c, run, after);
    forall p ensures SinceAt(base, base, w.next, p) {
      SinceStart(base, w.next, p);
    }
    SinceTransactions(base, w1, txs, w.next);
    ContentsAreWhole(w2.s, w2.next);
    IncrementLands(base, w.next, w2.s.root, replica, t1, t2);
  }

  lemma CloseSetsNext(w: Tx.World, c: Closing, run: Run, after: VT)
    ensures Tx.Do(w, Tx.CloseTx(c, run, after)).next == after
  {
  }
}
