/**
  The side-effect tasks of every node of the tree over whole runs: each is handed out once, and not
  again before the next refresh.
 */
module NodeLedgers {
  import opened Wrappers
  import opened Versions
  import opened Tasks
  import opened TaskLists
  import opened Trees
  import opened StructureSync
  import opened Transactions
  import opened Engine
  import opened Persistence
  import opened Replication
  import opened PureTimers
  import Tx = TransactionRuns

  function TasksHere(t: Tree, p: Path): seq<Task> {
    if Has(t, p) then SideEffectsOf(ItemAt(t, p)) else []
  }

  /** The side-effect tasks among physical ones. */
  function TasksIn(log: seq<Physical>): seq<Task> {
    if log == [] then [] else (if log[0].SideEffect? then [log[0].task] else []) + TasksIn(log[1..])
  }

  /** The keys one close handed out for the node at a path. */
  function HandedOut(out: seq<Physical>, p: Path): multiset<Key> {
    KeysOf(TasksIn(OfNode(out, p)))
  }

  lemma {:induction false} TasksInAll(log: seq<Physical>, tasks: seq<Task>)
    requires |log| == |tasks| && forall i :: 0 <= i < |log| ==> log[i].SideEffect? && log[i].task == tasks[i]
    ensures TasksIn(log) == tasks
  {
    if log == [] {
    } else {
      TasksInAll(log[1..], tasks[1..]);
    }
  }

  // --------------------------------------------------- what was handed out

  /** A replicated update goes on with the component the node was. */
  ghost predicate GoesOn(m: Tx.Delivery, p: Path) {
    && p in m.updated && m.updated[p].attrs.ComponentAttributes?
    && Has(m.mid, p) && IsComponent(ItemAt(m.mid, p))
  }

  /** A replicated update makes another node of it, or a node where there was none. */
  ghost predicate StartsAnew(m: Tx.Delivery, p: Path) {
    p in Changed(m.mid, m.updated) && !GoesOn(m, p)
  }

  /** The keys handed out for the node now at `p`, since the last refresh or since it arrived. */
  ghost function SentAction(sent: multiset<Key>, a: Tx.Action, p: Path): multiset<Key> {
    match a
    case RefreshAll => multiset{}
    case Replicate(m) => if StartsAnew(m, p) then multiset{} else sent
    case CloseTx(_, run, _) => sent + HandedOut(run.out, p)
    case _ => sent
  }

  ghost function SentAfter(sent: multiset<Key>, actions: seq<Tx.Action>, p: Path): multiset<Key>
    decreases |actions|
  {
    if actions == [] then sent else SentAfter(SentAction(sent, actions[0], p), actions[1..], p)
  }

  // ------------------------------------------------------ the node's ledger

  ghost function LedgerAt(l: Ledger, t: Tree, sent: multiset<Key>, p: Path): Ledger {
    Ledger(TasksHere(t, p), sent, LastKey(TasksHere(t, p), l.horizon))
  }

  ghost function NextLedger(l: Ledger, w: Tx.World, a: Tx.Action, p: Path): Ledger {
    LedgerAt(l, Tx.Do(w, a).s.root, SentAction(l.log, a, p), p)
  }

  /** The ledger is that of the node, and everything in it is older than the open transaction. */
  ghost predicate Follows(l: Ledger, w: Tx.World, p: Path) {
    l.tasks == TasksHere(w.s.root, p) && Sound(l) && Less(l.horizon.0, w.next)
  }

  /** Updates come in order: a task the node does not hold is newer than all this cluster has seen of it. */
  ghost predicate InSequence(l: Ledger, a: Tx.Action, p: Path) {
    a.Replicate? && GoesOn(a.m, p) ==>
      forall t :: t in a.m.updated[p].attrs.sideEffects ==>
        Lookup(BySideEffect, l.tasks, t).Some? || KeyLess(l.horizon, KeyOf(t))
  }

  ghost predicate RunInSequence(l: Ledger, w: Tx.World, actions: seq<Tx.Action>, p: Path)
    decreases |actions|
  {
    actions == [] ||
    (&& InSequence(l, actions[0], p)
     && RunInSequence(NextLedger(l, w, actions[0], p), Tx.Do(w, actions[0]), actions[1..], p))
  }

  // ----------------------------------------------------------- horizons

  lemma SameHorizon(l: Ledger, tasks: seq<Task>)
    requires Sound(l) && |tasks| == |l.tasks| && forall i :: 0 <= i < |tasks| ==> KeyOf(tasks[i]) == KeyOf(l.tasks[i])
    ensures LastKey(tasks, l.horizon) == l.horizon
  {
    if tasks != [] {
      assert l.tasks[|tasks| - 1] in l.tasks;
    }
  }

  lemma SameLastKey(a: seq<Task>, b: seq<Task>, h: Key)
    requires |a| == |b| && forall i :: 0 <= i < |a| ==> KeyOf(a[i]) == KeyOf(b[i])
    ensures LastKey(a, h) == LastKey(b, h)
  {
  }

  lemma CutKeepsSound(l: Ledger)
    requires Sound(l)
    ensures Sound(l.(tasks := []))
  {
  }

  /** The newest key stays older than the open transaction. */
  lemma HorizonIsOlder(l: Ledger, next: VT, t: Tree, next': VT, p: Path)
    requires Less(l.horizon.0, next) && (next == next' || Less(next, next')) && Dated(t, next')
    ensures Less(LastKey(TasksHere(t, p), l.horizon).0, next')
  {
    hide Has, FindNode;
    assert DatedAt(t, next', p);
    var tasks := TasksHere(t, p);
    if tasks != [] {
      assert tasks == TasksOf(BySideEffect, ItemAt(t, p).ser.value);
      assert tasks[|tasks| - 1] in tasks;
    }
  }

  // -------------------------------------------------------- each action

  lemma ListStays(l: Ledger, t: Tree, p: Path)
    requires Sound(l) && (TasksHere(t, p) == l.tasks || TasksHere(t, p) == [])
    ensures Sound(LedgerAt(l, t, l.log, p))
  {
    hide TasksHere, Sound;
    var tasks := TasksHere(t, p);
    SameHorizon(l, l.tasks);
    CutKeepsSound(l);
    assert LedgerAt(l, t, l.log, p) == l.(tasks := tasks);
  }

  lemma MutateLedger(l: Ledger, w: Tx.World, root: Tree, p: Path)
    requires Follows(l, w, p) && Tx.Mutates(w.s.root, root)
    ensures Sound(LedgerAt(l, root, l.log, p))
  {
    hide Has, FindNode, Sound, LedgerAt;
    assert Tx.MutatesAt(w.s.root, root, p);
    ListStays(l, root, p);
  }

  /** A synchronisation leaves a node its tasks, or makes another without any. */
  lemma SyncedTasks(t: Tree, next: VT, p: Path)
    ensures var s := SyncSubComponents(t, next); TasksHere(s, p) == TasksHere(t, p) || TasksHere(s, p) == []
  {
    hide Has, FindNode, Where, SyncSubComponents;
    SyncPath(t, next, p);
  }

  lemma RefreshLedger(l: Ledger, w: Tx.World, p: Path)
    requires Follows(l, w, p)
    ensures Sound(LedgerAt(l, Tx.Refreshed(w.s).root, multiset{}, p))
  {
    hide Has, FindNode, Sound, Tx.Refreshed;
    Tx.RefreshedAt(w.s, p);
    var t := Tx.Refreshed(w.s).root;
    assert TasksHere(t, p) == Reset(l.tasks) by {
      if Has(w.s.root, p) {
        ResetTasks(ItemAt(w.s.root, p));
      }
    }
    SameHorizon(l, Reset(l.tasks));
    assert LedgerAt(l, t, multiset{}, p) == Take(l, RefreshStep);
    StepKeepsSound(l, RefreshStep);
  }

  lemma ResetTasks(item: Item)
    ensures SideEffectsOf(ResetItem(item)) == Reset(SideEffectsOf(item))
  {
  }

  // ---------------------------------------------------------- replication

  /** Tasks that have no status yet and that nothing is known of. */
  lemma NewListIsSound(tasks: seq<Task>, h: Key)
    requires Sorted(BySideEffect, tasks) && forall x :: x in tasks ==> x.status == NotCreated
    ensures Sound(Ledger(tasks, multiset{}, LastKey(tasks, h)))
  {
    forall x | x in tasks ensures !KeyLess(LastKey(tasks, h), KeyOf(x)) {
      LastKeyBounds(tasks, h, KeyOf(x));
    }
  }

  lemma NoStatusTasks(ser: SerializedNode, x: Task)
    requires NoStatus(ser) && x in TasksOf(BySideEffect, ser)
    ensures x.status == NotCreated
  {
    var tasks := TasksOf(BySideEffect, ser);
    assert Reset(tasks) == tasks;
    var i :| 0 <= i < |tasks| && tasks[i] == x;
    assert Reset(tasks)[i].status == NotCreated;
  }

  /** A node that starts anew has no status. */
  lemma NewNodeHasNoStatus(w: Tx.World, m: Tx.Delivery, p: Path)
    requires Steady(w.s, w.next) && Tx.Delivers(w, m) && Tx.Sendable(w, Tx.Replicate(m)) && StartsAnew(m, p)
    ensures Has(m.end, p) && forall x :: x in TasksHere(m.end, p) ==> x.status == NotCreated
  {
    hide Has, FindNode, ResetSer, NoStatus, SortedNode, Tx.Orderly;
    Tx.RemovedFacts(w, m, p);
    assert AppliedAt(m.mid, m.end, m.updated, m.updated.Keys, p) && Deliverable(m.mid, m.updated, w.next, p);
    ResetTwice(m.updated[p]);
    if Has(m.mid, p) {
      SteadyPath(w.s, w.next, p);
    }
    var item := ItemAt(m.end, p);
    if IsComponent(item) {
      assert NoStatus(item.ser.value) by {
        if Has(m.mid, p) {
          assert item.ser == Some(m.updated[p]);
        }
      }
      forall x | x in TasksHere(m.end, p) ensures x.status == NotCreated {
        NoStatusTasks(item.ser.value, x);
      }
    }
  }

  /** An update that goes on merges the lists. */
  lemma MergedTasks(w: Tx.World, m: Tx.Delivery, p: Path)
    requires Steady(w.s, w.next) && Tx.Delivers(w, m) && Tx.Sendable(w, Tx.Replicate(m))
    requires p in Changed(m.mid, m.updated) && GoesOn(m, p)
    ensures Sorted(BySideEffect, m.updated[p].attrs.sideEffects)
    ensures TasksHere(m.end, p) == CarryOver(BySideEffect, TasksHere(w.s.root, p), m.updated[p].attrs.sideEffects)
  {
    hide Has, FindNode, CarryOver, Sorted, NoStatus, Tx.Orderly;
    Tx.RemovedFacts(w, m, p);
    assert AppliedAt(m.mid, m.end, m.updated, m.updated.Keys, p) && Deliverable(m.mid, m.updated, w.next, p);
    assert Sorted(BySideEffect, TasksOf(BySideEffect, m.updated[p]));
  }

  lemma ReplicateLedger(l: Ledger, w: Tx.World, m: Tx.Delivery, p: Path)
    requires Steady(w.s, w.next) && Follows(l, w, p) && Tx.Delivers(w, m) && Dated(m.end, w.next)
    requires Tx.Sendable(w, Tx.Replicate(m)) && InSequence(l, Tx.Replicate(m), p)
    ensures Sound(LedgerAt(l, m.end, SentAction(l.log, Tx.Replicate(m), p), p))
  {
    hide Steady, Has, FindNode, Sound, Tx.Delivers, Tx.Sendable, Changed, KeyLess, Lookup;
    var sent := SentAction(l.log, Tx.Replicate(m), p);
    if StartsAnew(m, p) {
      NewNodeHasNoStatus(w, m, p);
      DatedList(m.end, w.next, p);
      NewListIsSound(TasksHere(m.end, p), l.horizon);
    } else if p in Changed(m.mid, m.updated) {
      MergedTasks(w, m, p);
      var incoming := m.updated[p].attrs.sideEffects;
      MergedLedger(l, incoming);
      assert LedgerAt(l, m.end, sent, p) == Take(l, ReplicateStep(incoming));
    } else {
      UntouchedTasks(w, m, p);
      ListStays(l, m.end, p);
    }
  }

  lemma MergedLedger(l: Ledger, incoming: seq<Task>)
    requires Sound(l) && Sorted(BySideEffect, incoming)
    requires forall t :: t in incoming ==> Lookup(BySideEffect, l.tasks, t).Some? || KeyLess(l.horizon, KeyOf(t))
    ensures Sound(Take(l, ReplicateStep(incoming)))
    ensures LastKey(CarryOver(BySideEffect, l.tasks, incoming), l.horizon) == LastKey(incoming, l.horizon)
  {
    hide Sound, Sorted, KeyLess, Lookup;
    StepKeepsSound(l, ReplicateStep(incoming));
    SameLastKey(CarryOver(BySideEffect, l.tasks, incoming), incoming, l.horizon);
  }

  lemma DatedList(t: Tree, next: VT, p: Path)
    requires Dated(t, next)
    ensures Sorted(BySideEffect, TasksHere(t, p))
  {
    hide Has, FindNode, Cmp;
    assert DatedAt(t, next, p);
    if Has(t, p) && IsComponent(ItemAt(t, p)) {
      assert TasksHere(t, p) == TasksOf(BySideEffect, ItemAt(t, p).ser.value);
    }
  }

  /** What an update does not change stays, or goes with a deletion. */
  lemma UntouchedTasks(w: Tx.World, m: Tx.Delivery, p: Path)
    requires Steady(w.s, w.next) && Tx.Delivers(w, m) && p !in Changed(m.mid, m.updated)
    ensures TasksHere(m.end, p) == TasksHere(w.s.root, p) || TasksHere(m.end, p) == []
  {
    hide Has, FindNode, Changed, Tx.Delivers, Steady;
    if Has(m.end, p) {
      Tx.DeliveredNode(w, m, p);
    }
  }

  // -------------------------------------------------------------- closing

  lemma EmittedTasks(item: Item, p: Path, c: Closing, offset: int)
    requires IsComponent(item)
    ensures TasksIn(Emissions(item, p, c, offset)) == Emitted(TaskedAttributes(item, c, offset).sideEffects)
  {
    hide TaskedAttributes, Emitted, TasksIn;
    TasksInAll(Emissions(item, p, c, offset), Emitted(TaskedAttributes(item, c, offset).sideEffects));
  }

  /** Closing a node is a step of the ledger of its list. */
  lemma CloseIsLedgerStep(item: Item, p: Path, c: Closing, offset: int, l: Ledger)
    requires IsComponent(item) && l.tasks == item.ser.value.attrs.sideEffects
    ensures var step := CloseStep(UpdatedNow(item, c.next), c.next, OnTask(c.validate, item.value),
                                  NewsFor(item.value, c.news), OnNew(c.validate, item.value), offset);
      && Take(l, step).tasks == SideEffectsOf(ClosedItem(item, c, offset))
      && Take(l, step).log == l.log + KeysOf(TasksIn(Emissions(item, p, c, offset)))
      && Take(l, step).horizon == LastKey(SideEffectsOf(ClosedItem(item, c, offset)), l.horizon)
  {
    hide Prune, Stamped, Marked, Emitted, KeysOf, WithNewPures, TasksIn, Emissions, LastKey;
    var tasks := TaskedAttributes(item, c, offset).sideEffects;
    EmittedTasks(item, p, c, offset);
    SameLastKey(Marked(tasks), tasks, l.horizon);
  }

  lemma ClosedNodeLedger(item: Item, p: Path, c: Closing, offset: int, l: Ledger)
    requires l.tasks == SideEffectsOf(item) && Sound(l) && Less(l.horizon.0, c.next)
    ensures var tasks := SideEffectsOf(ClosedItem(item, c, offset));
      && Sound(Ledger(tasks, l.log + KeysOf(TasksIn(Emissions(item, p, c, offset))), LastKey(tasks, l.horizon)))
      && AllCreated(tasks)
  {
    hide Sound, Emissions, LastKey, Updated, Marked, Emitted, KeysOf, TasksIn, Take, Less;
    if IsComponent(item) {
      var step := CloseStep(UpdatedNow(item, c.next), c.next, OnTask(c.validate, item.value),
                            NewsFor(item.value, c.news), OnNew(c.validate, item.value), offset);
      CloseIsLedgerStep(item, p, c, offset, l);
      CloseKeepsSound(l, step);
      SoundIsShaped(l);
      Tx.ClosedIsHandedOut(item, c, offset);
    } else {
      NoEmissions(item, p, c, offset);
      assert l.log + multiset{} == l.log;
      SameHorizon(l, l.tasks);
    }
  }

  lemma SoundIsShaped(l: Ledger)
    requires Sound(l)
    ensures CreatedFirst(l.tasks)
  {
  }

  lemma NoEmissions(item: Item, p: Path, c: Closing, offset: int)
    requires !IsComponent(item)
    ensures KeysOf(TasksIn(Emissions(item, p, c, offset))) == multiset{} && ClosedItem(item, c, offset) == item
  {
  }

  lemma CloseLedger(l: Ledger, w: Tx.World, c: Closing, run: Run, p: Path)
    requires Steady(w.s, w.next) && Follows(l, w, p) && c.next == w.next && GoodRun(w.s, c, run)
    ensures var t := Tx.ClosedTree(c, run);
      Sound(LedgerAt(l, t, l.log + HandedOut(run.out, p), p)) && AllCreated(TasksHere(t, p))
  {
    hide Steady, GoodRun, Sound, Has, FindNode, SyncSubComponents, FinalNodes, Serialized, ClosedItem, Ready, Dirty,
         AllCreated, Tx.ClosedTree, LastKey, KeysOf, TasksIn, OfNode, Emissions, SideEffectsOf, Less;
    var t1, t := SyncSubComponents(w.s.root, w.next), Tx.ClosedTree(c, run);
    RunPaths(w.s, c, run, p);
    Tx.ClosedTreeAt(w.s, c, run, p);
    SyncedTasks(w.s.root, w.next, p);
    CutKeepsSound(l);
    NoneIsCreated();
    RunEmits(w.s, c, run, p);
    var l1 := l.(tasks := TasksHere(t1, p));
    assert Sound(l1);
    if Has(run.resolved, p) {
      var item := Serialized(ItemAt(run.resolved, p), c.next);
      SerializedHere(w, c, run, p);
      ClosedNodeLedger(item, p, c, run.offsets[p], l1);
      Tx.FinalKeepsSideEffects(run, c, p);
    } else {
      assert l.log + multiset{} == l.log;
      NothingLast(l.horizon);
    }
  }

  lemma NothingLast(h: Key)
    ensures LastKey([], h) == h && KeysOf(TasksIn([])) == multiset{}
  {
  }

  lemma NoneIsCreated()
    ensures AllCreated([])
  {
  }

  /** What a run hands out for a path. */
  lemma RunEmits(s: State, c: Closing, run: Run, p: Path)
    requires GoodRun(s, c, run)
    ensures if Has(run.resolved, p) then
        p in run.offsets
        && OfNode(run.out, p) == Emissions(Serialized(ItemAt(run.resolved, p), c.next), p, c, run.offsets[p])
      else OfNode(run.out, p) == []
  {
    hide Prepared, Ready, Serialized, Emissions, OfNode, Has, FindNode, TimerFits, TasksBroken, Spaced;
    assert Has(run.resolved, p) ==> Flat(run.resolved)[p] == ItemAt(run.resolved, p);
  }

  lemma SerializedHere(w: Tx.World, c: Closing, run: Run, p: Path)
    requires Steady(w.s, w.next) && c.next == w.next && GoodRun(w.s, c, run) && Has(run.resolved, p)
    ensures var item := Serialized(ItemAt(run.resolved, p), c.next);
      SideEffectsOf(item) == TasksHere(SyncSubComponents(w.s.root, w.next), p)
  {
    hide Steady, GoodRun, Has, FindNode, SyncSubComponents, Serialized, SideEffectsOf, Ready, Dirty;
    RunPaths(w.s, c, run, p);
    SyncedSer(w, p);
    Tx.SerializedKeepsTasks(ItemAt(run.resolved, p), p, c.next);
  }

  // ------------------------------------------------------------- whole runs

  lemma ActionKeepsDated(w: Tx.World, a: Tx.Action)
    requires Steady(w.s, w.next) && Dated(w.s.root, w.next) && Tx.Allowed(w, a) && Tx.Sendable(w, a)
    ensures Dated(Tx.Do(w, a).s.root, Tx.Do(w, a).next)
  {
    hide Steady, Dated, TimerTree, Tx.Do, Tx.Allowed, Tx.Sendable, LogAction, SortedTree;
    var log := LogOfTree(w.s.root, w.next);
    ActionTimers(w, a, log);
    TimersAreDated(Tx.Do(w, a).s.root, LogAction(log, a), Tx.Do(w, a).next);
  }

  lemma ActionLedger(l: Ledger, w: Tx.World, a: Tx.Action, p: Path)
    requires Steady(w.s, w.next) && Dated(w.s.root, w.next) && Tx.Allowed(w, a) && Tx.Sendable(w, a)
    requires Follows(l, w, p) && InSequence(l, a, p)
    ensures Follows(NextLedger(l, w, a, p), Tx.Do(w, a), p)
    ensures a.CloseTx? ==> AllCreated(TasksHere(Tx.Do(w, a).s.root, p))
  {
    hide Steady, Dated, Sound, GoodRun, Tx.Refreshed, SyncSubComponents, TasksHere, AllCreated, LastKey,
         StartsAnew, ReturnedMutation, FinalNodes, Regrow, Apply, HandedOut, InSequence, Tx.Delivers, Tx.Sendable;
    ActionKeepsDated(w, a);
    HorizonIsOlder(l, w.next, Tx.Do(w, a).s.root, Tx.Do(w, a).next, p);
    match a
    case Mutate(root) => MutateLedger(l, w, root, p);
    case SyncNow =>
      SyncedTasks(w.s.root, w.next, p);
      ListStays(l, SyncSubComponents(w.s.root, w.next), p);
    case RefreshAll => RefreshLedger(l, w, p);
    case Replicate(m) => ReplicateLedger(l, w, m, p);
    case CloseTx(c, run, after) => CloseLedger(l, w, c, run, p);
  }

  /** No key was handed out twice, and those of the tasks exactly where these are marked. */
  ghost predicate OnceEach(tasks: seq<Task>, sent: multiset<Key>) {
    && (forall k :: sent[k] <= 1)
    && (forall x :: x in tasks ==> sent[KeyOf(x)] == if x.status == Created then 1 else 0)
  }

  /**
    Over every run of the tree and for every node: no key is handed out twice since the last refresh,
    a task the node still has was handed out exactly when it is marked, and after a close every task
    it has was handed out exactly once.
   */
  lemma {:induction false} EveryTaskIsHandedOutOnce(l: Ledger, w: Tx.World, actions: seq<Tx.Action>, p: Path)
    requires Steady(w.s, w.next) && Dated(w.s.root, w.next) && Tx.AllowedRun(w, actions)
    requires Tx.Along(w, actions, Tx.Sendable)
    requires Follows(l, w, p) && RunInSequence(l, w, actions, p)
    ensures var tasks, sent := TasksHere(Tx.After(w, actions).s.root, p), SentAfter(l.log, actions, p);
      && OnceEach(tasks, sent)
      && (actions != [] && actions[|actions| - 1].CloseTx? ==> forall x :: x in tasks ==> sent[KeyOf(x)] == 1)
    decreases |actions|
  {
    hide Steady, Dated, Tx.Do, Tx.Allowed, Tx.Sendable, TasksHere, SentAction, InSequence;
    if actions == [] {
      SoundCounts(l);
    } else {
      var a, w1 := actions[0], Tx.Do(w, actions[0]);
      var l1 := NextLedger(l, w, a, p);
      ActionLedger(l, w, a, p);
      ActionKeepsDated(w, a);
      Tx.ActionKeeps(w, a);
      EveryTaskIsHandedOutOnce(l1, w1, actions[1..], p);
      assert SentAfter(l.log, actions, p) == SentAfter(l1.log, actions[1..], p);
      if |actions| == 1 {
        assert actions[1..] == [] && Tx.After(w, actions) == w1;
        if a.CloseTx? {
          CreatedTasks(TasksHere(w1.s.root, p));
        }
      } else {
        assert actions[1..][|actions| - 2] == actions[|actions| - 1];
      }
    }
  }

  lemma CreatedTasks(tasks: seq<Task>)
    requires AllCreated(tasks)
    ensures forall x :: x in tasks ==> x.status == Created
  {
  }

  lemma SoundCounts(l: Ledger)
    requires Sound(l)
    ensures OnceEach(l.tasks, l.log)
  {
  }

  // ------------------------------------------------------------ beginnings

  ghost function MarkedKeys(tasks: seq<Task>): set<Key> {
    set x | x in tasks && x.status == Created :: KeyOf(x)
  }

  /** The ledger with which a run begins at a node: what is marked was handed out. */
  ghost function Opening(t: Tree, p: Path): Ledger {
    LedgerAt(Ledger([], multiset{}, (ZERO, 0)), t, multiset(MarkedKeys(TasksHere(t, p))), p)
  }

  lemma KeysAreDistinct(tasks: seq<Task>, x: Task, y: Task)
    requires Sorted(BySideEffect, tasks) && x in tasks && y in tasks && KeyOf(x) == KeyOf(y)
    ensures x == y
  {
    var i :| 0 <= i < |tasks| && tasks[i] == x;
    var j :| 0 <= j < |tasks| && tasks[j] == y;
    assert i < j ==> Cmp(BySideEffect, x, y) == -1;
    assert j < i ==> Cmp(BySideEffect, y, x) == -1;
  }

  lemma OpeningIsSound(tasks: seq<Task>, h: Key)
    requires Sorted(BySideEffect, tasks) && CreatedFirst(tasks)
    ensures Sound(Ledger(tasks, multiset(MarkedKeys(tasks)), LastKey(tasks, h)))
  {
    hide Sorted, CreatedFirst, KeyLess, LastKey;
    LastKeyBounds(tasks, h, h);
    forall x | x in tasks ensures KeyOf(x) in MarkedKeys(tasks) <==> x.status == Created {
      forall y | y in tasks && KeyOf(y) == KeyOf(x) ensures y == x {
        KeysAreDistinct(tasks, y, x);
      }
    }
  }

  /** Every node in which created tasks come first has such a ledger, so every run from there hands out once. */
  lemma EveryNodeOpens(w: Tx.World, p: Path)
    requires Steady(w.s, w.next) && Dated(w.s.root, w.next) && Tx.ShapedAt(w.s.root, p)
    ensures Follows(Opening(w.s.root, p), w, p)
  {
    hide Has, FindNode, SteadyAt, Sound, Sorted, CreatedFirst, MarkedKeys, LastKey, Less;
    var tasks := TasksHere(w.s.root, p);
    HorizonIsOlder(Ledger([], multiset{}, (ZERO, 0)), w.next, w.s.root, w.next, p);
    assert DatedAt(w.s.root, w.next, p);
    if Has(w.s.root, p) {
      SteadyPath(w.s, w.next, p);
      assert IsComponent(ItemAt(w.s.root, p)) ==> tasks == TasksOf(BySideEffect, ItemAt(w.s.root, p).ser.value);
    }
    NoneIsOrdered();
    OpeningIsSound(tasks, (ZERO, 0));
  }

  lemma NoneIsOrdered()
    ensures Sorted(BySideEffect, []) && CreatedFirst([])
  {
  }
}
