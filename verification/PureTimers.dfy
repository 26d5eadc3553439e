/**
  Pure tasks share one physical timer per tree. After every close a timer for the earliest pure
  task of the whole tree is out in this cluster.
 */
module PureTimers {
  import opened Wrappers
  import opened Versions
  import opened Tasks
  import opened TaskLists
  import opened Trees
  import opened StructureSync
  import opened Transactions
  import opened Engine
  import opened Persistence
  import opened Replication
  import Tx = TransactionRuns

  /**
    A node whose lists are sorted and older than the open transaction, and whose created pure
    tasks all have their timer among the physical tasks handed out.
   */
  ghost predicate TimerNode(ser: SerializedNode, log: seq<Physical>, next: VT) {
    DatedNode(ser, next) && Logged(TasksOf(ByPure, ser), log)
  }

  ghost predicate DatedNode(ser: SerializedNode, next: VT) {
    SortedNode(ser) && forall o, x :: x in TasksOf(o, ser) ==> Less(x.vt, next)
  }

  ghost predicate Logged(pures: seq<Task>, log: seq<Physical>) {
    forall x :: x in pures && x.status == Created ==> PureTimer(AsTime(x.scheduled)) in log
  }

  ghost predicate TimedAt(t: Tree, log: seq<Physical>, next: VT, p: Path) {
    Has(t, p) && ItemAt(t, p).ser.Some? ==> TimerNode(ItemAt(t, p).ser.value, log, next)
  }

  ghost predicate TimerTree(t: Tree, log: seq<Physical>, next: VT) {
    forall p :: TimedAt(t, log, next, p)
  }

  /** The part that does not speak of timers. */
  ghost predicate Dated(t: Tree, next: VT) {
    forall p :: DatedAt(t, next, p)
  }

  ghost predicate DatedAt(t: Tree, next: VT, p: Path) {
    Has(t, p) && ItemAt(t, p).ser.Some? ==> DatedNode(ItemAt(t, p).ser.value, next)
  }

  lemma TimersAreDated(t: Tree, log: seq<Physical>, next: VT)
    requires TimerTree(t, log, next)
    ensures Dated(t, next) && SortedTree(t)
  {
    hide Has, FindNode, DatedNode, SortedNode;
    forall p ensures DatedAt(t, next, p) {
      assert TimedAt(t, log, next, p);
    }
    DatedIsSorted(t, next);
  }

  lemma DatedIsSorted(t: Tree, next: VT)
    requires Dated(t, next)
    ensures SortedTree(t)
  {
    hide Has, FindNode, SortedNode;
    forall p | Has(t, p) && ItemAt(t, p).ser.Some? ensures SortedNode(ItemAt(t, p).ser.value) {
      assert DatedAt(t, next, p);
    }
  }

  /** Some log has all the timers: enough of one to reuse what is proved with logs. */
  lemma {:induction false} LogOfAll(t: Tree, next: VT, paths: set<Path>) returns (log: seq<Physical>)
    requires Dated(t, next)
    ensures forall p :: p in paths ==> TimedAt(t, log, next, p)
  {
    hide Dated, Has, FindNode, DatedNode;
    if paths == {} {
      log := [];
    } else {
      var p :| p in paths;
      var rest := LogOfAll(t, next, paths - {p});
      var pures := if Has(t, p) then PuresOf(ItemAt(t, p)) else [];
      var own := seq(|pures|, i requires 0 <= i < |pures| => PureTimer(AsTime(pures[i].scheduled)));
      log := rest + own;
      forall q | q in paths ensures TimedAt(t, log, next, q) {
        if q == p {
          OwnTimers(t, next, p, rest, own);
        } else {
          assert TimedAt(t, rest, next, q);
        }
      }
    }
  }

  lemma OwnTimers(t: Tree, next: VT, p: Path, rest: seq<Physical>, own: seq<Physical>)
    requires Dated(t, next)
    requires var pures := if Has(t, p) then PuresOf(ItemAt(t, p)) else [];
      own == seq(|pures|, i requires 0 <= i < |pures| => PureTimer(AsTime(pures[i].scheduled)))
    ensures TimedAt(t, rest + own, next, p)
  {
    hide Has, FindNode, DatedNode;
    assert DatedAt(t, next, p);
    if Has(t, p) && ItemAt(t, p).ser.Some? {
      var pures := TasksOf(ByPure, ItemAt(t, p).ser.value);
      assert IsComponent(ItemAt(t, p)) ==> pures == PuresOf(ItemAt(t, p));
      forall x | x in pures ensures PureTimer(AsTime(x.scheduled)) in rest + own {
        var i :| 0 <= i < |pures| && pures[i] == x;
        assert own[i] == PureTimer(AsTime(x.scheduled)) && own[i] in own;
      }
    }
  }

  lemma LogOfTree(t: Tree, next: VT) returns (log: seq<Physical>)
    requires Dated(t, next)
    ensures TimerTree(t, log, next)
  {
    hide Dated, TimedAt;
    log := LogOfAll(t, next, Paths(t));
    forall p ensures TimedAt(t, log, next, p) {
      if !Has(t, p) {
        NothingTimed(t, log, next, p);
      }
    }
  }

  lemma NothingTimed(t: Tree, log: seq<Physical>, next: VT, p: Path)
    requires !Has(t, p)
    ensures TimedAt(t, log, next, p)
  {
  }

  // ------------------------------------------------------ list by list

  lemma ResetNode(ser: SerializedNode, log: seq<Physical>, next: VT)
    requires TimerNode(ser, log, next)
    ensures TimerNode(ResetSer(ser), [], next)
  {
    if ser.attrs.ComponentAttributes? {
      var r := ResetSer(ser);
      forall o ensures Sorted(o, TasksOf(o, r)) {
        ResetSorted(o, TasksOf(o, ser));
        assert TasksOf(o, r) == Reset(TasksOf(o, ser));
      }
      forall o, x | x in TasksOf(o, r) ensures Less(x.vt, next) && x.status == NotCreated {
        var i :| 0 <= i < |TasksOf(o, r)| && TasksOf(o, r)[i] == x;
        assert TasksOf(o, ser)[i] in TasksOf(o, ser);
      }
    }
  }

  /** A carried status comes from a task with the same scheduled time. */
  lemma CarryLogged(local: seq<Task>, incoming: seq<Task>, log: seq<Physical>)
    requires Logged(local, log)
    ensures Logged(CarryOver(ByPure, local, incoming), log)
  {
    var r := CarryOver(ByPure, local, incoming);
    forall x | x in r && x.status == Created ensures PureTimer(AsTime(x.scheduled)) in log {
      var i :| 0 <= i < |r| && r[i] == x;
      var s := Lookup(ByPure, local, incoming[i]);
      assert s.Some? && s.value in local && AsTime(s.value.scheduled) == AsTime(x.scheduled);
    }
  }

  lemma CarryTimerNode(local: SerializedNode, incoming: SerializedNode, log: seq<Physical>, next: VT)
    requires TimerNode(local, log, next) && SortedNode(incoming)
    requires forall o, x :: x in TasksOf(o, incoming) ==> Less(x.vt, next)
    requires !local.attrs.ComponentAttributes? ==> NoStatus(incoming)
    ensures TimerNode(CarrySer(local, incoming), log, next)
  {
    hide Cmp, CarryOver, Logged;
    var r := CarrySer(local, incoming);
    if local.attrs.ComponentAttributes? && incoming.attrs.ComponentAttributes? {
      CarrySorted(BySideEffect, TasksOf(BySideEffect, local), TasksOf(BySideEffect, incoming));
      CarrySorted(ByPure, TasksOf(ByPure, local), TasksOf(ByPure, incoming));
      CarryLogged(TasksOf(ByPure, local), TasksOf(ByPure, incoming), log);
      forall o, x | x in TasksOf(o, r) ensures Less(x.vt, next) {
        CarriedVt(o, TasksOf(o, local), TasksOf(o, incoming), x);
      }
    } else {
      NoStatusIsLogged(incoming, log);
    }
  }

  lemma CarriedVt(o: Order, local: seq<Task>, incoming: seq<Task>, x: Task)
    requires x in CarryOver(o, local, incoming)
    ensures exists y :: y in incoming && y.vt == x.vt
  {
    var r := CarryOver(o, local, incoming);
    var i :| 0 <= i < |r| && r[i] == x;
    assert incoming[i] in incoming;
  }

  lemma NoStatusIsLogged(ser: SerializedNode, log: seq<Physical>)
    requires NoStatus(ser)
    ensures Logged(TasksOf(ByPure, ser), log)
  {
    if ser.attrs.ComponentAttributes? {
      var pures := ser.attrs.pures;
      assert Reset(pures) == pures;
      forall x | x in pures ensures x.status == NotCreated {
        var i :| 0 <= i < |pures| && pures[i] == x;
        assert Reset(pures)[i].status == NotCreated;
      }
    }
  }

  // --------------------------------------------------- closing a node

  lemma SideEffectsStaySorted(tasks: seq<Task>, new': seq<Task>, next: VT)
    requires Sorted(BySideEffect, tasks) && forall x :: x in tasks ==> Less(x.vt, next)
    requires forall i :: 0 <= i < |new'| ==> new'[i].vt == next
    requires forall i, j :: 0 <= i < j < |new'| ==> new'[i].offset < new'[j].offset
    ensures Sorted(BySideEffect, tasks + new')
  {
    var r := tasks + new';
    forall i, j | 0 <= i < j < |r| ensures Cmp(BySideEffect, r[i], r[j]) == -1 {
      if i < |tasks| <= j {
        assert tasks[i] in tasks;
      }
    }
  }

  lemma PuresStaySorted(tasks: seq<Task>, new': seq<Task>, next: VT)
    requires Sorted(ByPure, tasks) && forall x :: x in tasks ==> Less(x.vt, next)
    requires forall i :: 0 <= i < |new'| ==> new'[i].vt == next
    requires forall i, j :: 0 <= i < j < |new'| ==> new'[i].offset < new'[j].offset
    ensures Sorted(ByPure, WithNewPures(tasks, new'))
  {
    hide SortPure;
    var r := tasks + new';
    forall i, j | 0 <= i < j < |r| ensures Cmp(ByPure, r[i], r[j]) != 0 {
      if i < |tasks| <= j {
        assert tasks[i] in tasks;
      } else if j < |tasks| {
        assert Cmp(ByPure, tasks[i], tasks[j]) == -1;
      }
    }
    SortPureSorts(r);
  }

  lemma WithNewPuresMember(tasks: seq<Task>, new': seq<Task>, x: Task)
    requires x in WithNewPures(tasks, new')
    ensures x in tasks || x in new'
  {
    hide SortPure;
    if new' != [] {
      assert x in multiset(SortPure(tasks + new'));
      assert x in multiset(tasks + new');
    }
  }

  /** The two lists of a component once pruned and extended. */
  lemma TaskedTimer(item: Item, c: Closing, offset: int, log: seq<Physical>, after: VT)
    requires IsComponent(item) && TimerNode(item.ser.value, log, c.next) && Less(c.next, after)
    ensures var attrs := TaskedAttributes(item, c, offset);
      && Sorted(BySideEffect, attrs.sideEffects) && Sorted(ByPure, attrs.pures)
      && (forall x :: x in attrs.sideEffects || x in attrs.pures ==> Less(x.vt, after))
      && Logged(attrs.pures, log)
  {
    hide Prune, Stamped, WithNewPures, Sorted, Cmp;
    var ser := item.ser.value;
    assert Sorted(BySideEffect, TasksOf(BySideEffect, ser)) && Sorted(ByPure, TasksOf(ByPure, ser));
    assert forall x :: x in TasksOf(BySideEffect, ser) || x in TasksOf(ByPure, ser) ==> Less(x.vt, c.next);
    if UpdatedNow(item, c.next) {
      var old', new' := OnTask(c.validate, item.value), OnNew(c.validate, item.value);
      var news := NewsFor(item.value, c.news);
      var a, b := Prune(ser.attrs.sideEffects, old'), Stamped(false, news, new', c.next, offset);
      PruneKeepsOrder(BySideEffect, ser.attrs.sideEffects, old');
      SideEffectsStaySorted(a, b, c.next);
      var d, e := Prune(ser.attrs.pures, old'), Stamped(true, news, new', c.next, offset);
      PruneKeepsOrder(ByPure, ser.attrs.pures, old');
      PuresStaySorted(d, e, c.next);
      forall x | x in WithNewPures(d, e) ensures x in ser.attrs.pures || (x.vt == c.next && x.status == NotCreated) {
        WithNewPuresMember(d, e, x);
      }
    }
  }

  lemma ClosedTimer(item: Item, c: Closing, offset: int, log: seq<Physical>, after: VT)
    requires item.ser.Some? && TimerNode(item.ser.value, log, c.next) && Less(c.next, after)
    ensures var r := ClosedItem(item, c, offset); r.ser.Some? && TimerNode(r.ser.value, log, after)
  {
    hide TaskedAttributes, Marked, Cmp, Logged;
    if IsComponent(item) {
      var attrs, r := TaskedAttributes(item, c, offset), ClosedItem(item, c, offset).ser.value;
      TaskedTimer(item, c, offset, log, after);
      MarkedKeepsKeys(attrs.sideEffects);
      assert TasksOf(BySideEffect, r) == Marked(attrs.sideEffects) && TasksOf(ByPure, r) == attrs.pures;
      forall x | x in Marked(attrs.sideEffects) ensures Less(x.vt, after) {
        var i :| 0 <= i < |attrs.sideEffects| && Marked(attrs.sideEffects)[i] == x;
        assert attrs.sideEffects[i] in attrs.sideEffects;
      }
    } else {
      assert forall o :: TasksOf(o, item.ser.value) == [];
    }
  }

  lemma MoreLogged(ser: SerializedNode, log: seq<Physical>, out: seq<Physical>, next: VT)
    requires TimerNode(ser, log, next)
    ensures TimerNode(ser, log + out, next)
  {
    hide SortedNode;
  }

  /** Marking the first pure task is covered by the timer just handed out. */
  lemma FirstTimer(item: Item, log: seq<Physical>, next: VT)
    requires PuresOf(item) != [] && TimerNode(item.ser.value, log, next)
    requires PureTimer(AsTime(PuresOf(item)[0].scheduled)) in log
    ensures var r := MarkFirstPure(item); r.ser.Some? && TimerNode(r.ser.value, log, next)
  {
    var pures, r := PuresOf(item), MarkFirstPure(item).ser.value;
    var marked := pures[0 := pures[0].(status := Created)];
    assert TasksOf(ByPure, r) == marked && TasksOf(BySideEffect, r) == TasksOf(BySideEffect, item.ser.value);
    assert TasksOf(ByPure, item.ser.value) == pures;
    forall i, j | 0 <= i < j < |marked| ensures Cmp(ByPure, marked[i], marked[j]) == -1 {
      assert Cmp(ByPure, pures[i], pures[j]) == -1;
    }
    forall x | x in marked ensures Less(x.vt, next) && (x.status == Created ==> PureTimer(AsTime(x.scheduled)) in log) {
      var i :| 0 <= i < |marked| && marked[i] == x;
      assert pures[i] in pures;
    }
  }

  lemma {:induction false} TimersAreOut(log: seq<Physical>, x: Physical)
    requires x in Timers(log)
    ensures x in log
  {
    if log[0] != x {
      TimersAreOut(log[1..], x);
    }
  }

  // ------------------------------------------------- the whole tree

  lemma MutateTimers(t: Tree, t': Tree, log: seq<Physical>, next: VT)
    requires TimerTree(t, log, next) && Tx.Mutates(t, t')
    ensures TimerTree(t', log, next)
  {
    hide TimerNode, Has, FindNode;
    forall p ensures TimedAt(t', log, next, p) {
      assert TimedAt(t, log, next, p) && Tx.MutatesAt(t, t', p);
    }
  }

  lemma EmptyNode(ser: SerializedNode, log: seq<Physical>, next: VT)
    requires forall o :: TasksOf(o, ser) == []
    ensures TimerNode(ser, log, next)
  {
  }

  lemma SyncTimers(t: Tree, log: seq<Physical>, next: VT)
    requires TimerTree(t, log, next)
    ensures TimerTree(SyncSubComponents(t, next), log, next)
  {
    hide TimerNode, Has, FindNode, Where, SyncSubComponents;
    var s := SyncSubComponents(t, next);
    forall p ensures TimedAt(s, log, next, p) {
      assert TimedAt(t, log, next, p);
      SyncPath(t, next, p);
      if Has(s, p) && IsNew(ItemAt(s, p), next) {
        EmptyNode(ItemAt(s, p).ser.value, log, next);
      }
    }
  }

  /** After a refresh no timer counts any more: none is marked. */
  lemma RefreshTimers(w: Tx.World, log: seq<Physical>)
    requires TimerTree(w.s.root, log, w.next)
    ensures TimerTree(Tx.Refreshed(w.s).root, [], w.next)
  {
    hide TimerNode, Has, FindNode, ResetSer, Tx.Refreshed, ResetItem;
    forall p ensures TimedAt(Tx.Refreshed(w.s).root, [], w.next, p) {
      assert TimedAt(w.s.root, log, w.next, p);
      Tx.RefreshedAt(w.s, p);
      if Has(w.s.root, p) {
        ResetIsSer(ItemAt(w.s.root, p));
        if ItemAt(w.s.root, p).ser.Some? {
          ResetNode(ItemAt(w.s.root, p).ser.value, log, w.next);
        }
      }
    }
  }

  lemma ResetIsSer(item: Item)
    ensures ResetItem(item).ser == if item.ser.Some? then Some(ResetSer(item.ser.value)) else None
  {
  }

  lemma SerializedTimer(item: Item, p: Path, log: seq<Physical>, next: VT)
    requires item.ser.Some? && Ready(item, p, next) && TimerNode(item.ser.value, log, next)
    ensures Serialized(item, next).ser.Some? && TimerNode(Serialized(item, next).ser.value, log, next)
  {
    var r := Serialized(item, next).ser.value;
    assert forall o :: TasksOf(o, r) == TasksOf(o, item.ser.value);
  }

  lemma ClosedNodeTimer(w: Tx.World, c: Closing, run: Run, log: seq<Physical>, after: VT, p: Path)
    requires Steady(w.s, w.next) && TimerTree(w.s.root, log, w.next)
    requires c.next == w.next && Less(w.next, after) && GoodRun(w.s, c, run) && Has(run.resolved, p)
    ensures p in ClosedNodes(run, c) && ClosedNodes(run, c)[p].ser.Some?
    ensures TimerNode(ClosedNodes(run, c)[p].ser.value, log, after)
  {
    hide SyncSubComponents, GoodRun, Serialized, ClosedItem, Has, FindNode, Where, Ready, Dirty, TimerNode, Compare,
         Handled, SideEffectsOf, Settled;
    RunPaths(w.s, c, run, p);
    SyncTimers(w.s.root, log, w.next);
    SyncedSer(w, p);
    assert TimedAt(SyncSubComponents(w.s.root, w.next), log, w.next, p);
    var item := ItemAt(run.resolved, p);
    SerializedTimer(item, p, log, w.next);
    ClosedTimer(Serialized(item, w.next), c, run.offsets[p], log, after);
    assert p in Flat(run.resolved) && Flat(run.resolved)[p] == item;
  }

  lemma SyncedSer(w: Tx.World, p: Path)
    requires Steady(w.s, w.next) && Has(SyncSubComponents(w.s.root, w.next), p)
    ensures ItemAt(SyncSubComponents(w.s.root, w.next), p).ser.Some?
  {
    hide SyncSubComponents, Has, FindNode, Where;
    if Has(w.s.root, p) {
      SteadyPath(w.s, w.next, p);
    }
    SyncPath(w.s.root, w.next, p);
  }

  lemma TimerOut(c: Closing, run: Run)
    requires Handled(c, run)
    ensures run.first.Some? ==>
      run.first.value in ClosedNodes(run, c) && PuresOf(ClosedNodes(run, c)[run.first.value]) != []
    ensures run.timer ==>
      run.first.Some? && PureTimer(AsTime(PuresOf(ClosedNodes(run, c)[run.first.value])[0].scheduled)) in run.out
    ensures !run.timer && run.first.Some? ==> PuresOf(ClosedNodes(run, c)[run.first.value])[0].status == Created
    ensures |Timers(run.out)| == if run.timer then 1 else 0
  {
    hide ClosedNodes, SerializedNodes, First, OfNode, Timers, TasksBroken, Emissions;
    if run.timer {
      var x := PureTimer(AsTime(PuresOf(ClosedNodes(run, c)[run.first.value])[0].scheduled));
      assert Timers(run.out) == [x];
      TimersAreOut(run.out, x);
    }
  }

  lemma FinalTimer(w: Tx.World, c: Closing, run: Run, log: seq<Physical>, after: VT, p: Path)
    requires Steady(w.s, w.next) && TimerTree(w.s.root, log, w.next)
    requires c.next == w.next && Less(w.next, after) && GoodRun(w.s, c, run) && Has(run.resolved, p)
    ensures p in FinalNodes(run, c) && FinalNodes(run, c)[p].ser.Some?
    ensures TimerNode(FinalNodes(run, c)[p].ser.value, log + run.out, after)
  {
    hide ClosedNodes, Has, FindNode, TimerNode, Timers, MarkFirstPure, Prepared, Handled, Ready, Steady, TimerTree,
         Compare;
    ClosedNodeTimer(w, c, run, log, after, p);
    var closed := ClosedNodes(run, c)[p];
    MoreLogged(closed.ser.value, log, run.out, after);
    TimerOut(c, run);
    if run.timer && run.first == Some(p) {
      FirstTimer(closed, log + run.out, after);
    }
  }

  lemma CloseTimers(w: Tx.World, c: Closing, run: Run, log: seq<Physical>, after: VT)
    requires Steady(w.s, w.next) && TimerTree(w.s.root, log, w.next)
    requires Tx.Allowed(w, Tx.CloseTx(c, run, after))
    ensures TimerTree(Tx.Do(w, Tx.CloseTx(c, run, after)).s.root, log + run.out, after)
  {
    hide GoodRun, FinalNodes, ReturnedMutation, Apply, Regrow, Flat, Steady, TimerTree;
    Tx.ClosedTreeAt(w.s, c, run, []);
    ClosedIsTimed(w, c, run, log, after, Tx.ClosedTree(c, run));
  }

  /** A close keeps lists sorted and older than the next transaction, whatever timers are out. */
  lemma ClosedIsDated(w: Tx.World, c: Closing, run: Run, after: VT, t: Tree)
    requires Steady(w.s, w.next) && Dated(w.s.root, w.next)
    requires c.next == w.next && Less(w.next, after) && GoodRun(w.s, c, run) && Flat(t) == FinalNodes(run, c)
    ensures Dated(t, after)
  {
    hide GoodRun, FinalNodes, Dated, Steady, TimerTree, TimedAt;
    var log := LogOfTree(w.s.root, w.next);
    ClosedIsTimed(w, c, run, log, after, t);
    TimersAreDated(t, log + run.out, after);
  }

  lemma ClosedIsTimed(w: Tx.World, c: Closing, run: Run, log: seq<Physical>, after: VT, t: Tree)
    requires Steady(w.s, w.next) && TimerTree(w.s.root, log, w.next)
    requires c.next == w.next && Less(w.next, after) && GoodRun(w.s, c, run) && Flat(t) == FinalNodes(run, c)
    ensures TimerTree(t, log + run.out, after)
  {
    hide GoodRun, FinalNodes, TimerTree, TimerNode, Steady, Has, FindNode;
    Tx.FinalIsWhole(w.s, c, run);
    forall p ensures TimedAt(t, log + run.out, after, p) {
      assert p in Flat(t) <==> p in FinalNodes(run, c);
      if p in FinalNodes(run, c) {
        assert ItemAt(t, p) == Flat(t)[p];
        FinalTimer(w, c, run, log, after, p);
      }
    }
    TimerTreeFrom(t, log + run.out, after);
  }

  lemma TimerTreeFrom(t: Tree, log: seq<Physical>, next: VT)
    requires forall p :: TimedAt(t, log, next, p)
    ensures TimerTree(t, log, next)
  {
  }

  /** `e` is the scheduled time of some pure task and no later than that of any other. */
  ghost predicate IsEarliest(nodes: map<Path, Item>, e: Time) {
    && (exists p, x :: p in nodes && x in PuresOf(nodes[p]) && AsTime(x.scheduled) == e)
    && (forall p, x :: p in nodes && x in PuresOf(nodes[p]) ==> e <= AsTime(x.scheduled))
  }

  lemma SortedFirst(pures: seq<Task>, x: Task)
    requires Sorted(ByPure, pures) && x in pures
    ensures AsTime(pures[0].scheduled) <= AsTime(x.scheduled)
  {
    var i :| 0 <= i < |pures| && pures[i] == x;
    assert i > 0 ==> Cmp(ByPure, pures[0], pures[i]) == -1;
  }

  /** The earliest first task of sorted lists is the earliest of all tasks. */
  lemma LeastIsEarliest(nodes: map<Path, Item>, f: Path)
    requires LeastPure(nodes, nodes.Keys, f) && forall p :: p in nodes ==> Sorted(ByPure, PuresOf(nodes[p]))
    ensures IsEarliest(nodes, AsTime(PuresOf(nodes[f])[0].scheduled))
  {
    var e := AsTime(PuresOf(nodes[f])[0].scheduled);
    assert PuresOf(nodes[f])[0] in PuresOf(nodes[f]);
    forall p, x | p in nodes && x in PuresOf(nodes[p]) ensures e <= AsTime(x.scheduled) {
      SortedFirst(PuresOf(nodes[p]), x);
      assert Cmp(ByPure, PuresOf(nodes[f])[0], PuresOf(nodes[p])[0]) <= 0;
    }
  }

  lemma MarkingKeepsEarliest(nodes: map<Path, Item>, f: Path, e: Time)
    requires f in nodes && PuresOf(nodes[f]) != [] && IsEarliest(nodes, e)
    ensures IsEarliest(nodes[f := MarkFirstPure(nodes[f])], e)
  {
    var after, pures := nodes[f := MarkFirstPure(nodes[f])], PuresOf(nodes[f]);
    var marked := PuresOf(after[f]);
    assert marked == pures[0 := pures[0].(status := Created)];
    forall p, x | p in after && x in PuresOf(after[p]) ensures e <= AsTime(x.scheduled) {
      if p == f {
        var i :| 0 <= i < |marked| && marked[i] == x;
        assert pures[i] in pures;
      }
    }
    var p, x :| p in nodes && x in PuresOf(nodes[p]) && AsTime(x.scheduled) == e;
    if p == f {
      var i :| 0 <= i < |pures| && pures[i] == x;
      assert marked[i] in PuresOf(after[f]);
    } else {
      assert x in PuresOf(after[p]);
    }
  }

  lemma ClosedSorted(w: Tx.World, c: Closing, run: Run, log: seq<Physical>, after: VT, p: Path)
    requires Steady(w.s, w.next) && TimerTree(w.s.root, log, w.next)
    requires c.next == w.next && Less(w.next, after) && GoodRun(w.s, c, run) && p in ClosedNodes(run, c)
    ensures Sorted(ByPure, PuresOf(ClosedNodes(run, c)[p])) && Logged(PuresOf(ClosedNodes(run, c)[p]), log)
  {
    hide GoodRun, Has, FindNode, Steady, TimerTree, Cmp, Serialized, ClosedItem, Logged, Sorted;
    ClosedNodeTimer(w, c, run, log, after, p);
    var item := ClosedNodes(run, c)[p];
    assert Sorted(ByPure, TasksOf(ByPure, item.ser.value));
    assert IsComponent(item) ==> PuresOf(item) == TasksOf(ByPure, item.ser.value);
    if !IsComponent(item) {
      assert TasksOf(ByPure, item.ser.value) == [];
    }
  }

  /**
    After a close, either no pure task is left or a timer for the earliest scheduled time in the
    whole tree is out in this cluster; the close itself handed out at most one timer.
   */
  lemma EarliestTimerIsOut(w: Tx.World, c: Closing, run: Run, log: seq<Physical>, after: VT)
    requires Steady(w.s, w.next) && TimerTree(w.s.root, log, w.next)
    requires c.next == w.next && Less(w.next, after) && GoodRun(w.s, c, run)
    ensures |Timers(run.out)| <= 1
    ensures NoPures(FinalNodes(run, c), FinalNodes(run, c).Keys)
      || exists e :: PureTimer(e) in log + run.out && IsEarliest(FinalNodes(run, c), e)
  {
    hide Prepared, Ready, Has, FindNode, Steady, TimerTree, Cmp, Timers, IsEarliest, ClosedNodes, SerializedNodes,
         Logged, Sorted;
    var closed := ClosedNodes(run, c);
    TimerOut(c, run);
    if run.first.Some? {
      var f := run.first.value;
      var e := AsTime(PuresOf(closed[f])[0].scheduled);
      forall p | p in closed ensures Sorted(ByPure, PuresOf(closed[p])) {
        ClosedSorted(w, c, run, log, after, p);
      }
      LeastIsEarliest(closed, f);
      if run.timer {
        MarkingKeepsEarliest(closed, f, e);
        assert PureTimer(e) in run.out;
      } else {
        ClosedSorted(w, c, run, log, after, f);
        FirstIsLogged(PuresOf(closed[f]), log);
      }
      assert PureTimer(e) in log + run.out && IsEarliest(FinalNodes(run, c), e);
    }
  }

  lemma FirstIsLogged(pures: seq<Task>, log: seq<Physical>)
    requires pures != [] && pures[0].status == Created && Logged(pures, log)
    ensures PureTimer(AsTime(pures[0].scheduled)) in log
  {
    assert pures[0] in pures;
  }

  // -------------------------------------------- replication and whole runs

  lemma ReplicationTimers(t: Tree, t1: Tree, t2: Tree, d: set<Path>, u: Updates, log: seq<Physical>, next: VT)
    requires TimerTree(t, log, next) && Removed(t, t1, d) && Applied(t1, t2, u, u.Keys)
    requires forall q :: Deliverable(t1, u, next, q)
    ensures TimerTree(t2, log, next)
  {
    hide TimerNode, Has, FindNode, CarrySer, ResetSer, SameVersion;
    forall q ensures TimedAt(t2, log, next, q) {
      assert TimedAt(t, log, next, q) && RemovedAt(t, t1, d, q) && AppliedAt(t1, t2, u, u.Keys, q);
      if q in u {
        assert Deliverable(t1, u, next, q);
        ArrivedNode(u[q], log, next);
        if Has(t1, q) && ItemAt(t1, q).ser.Some? {
          CarryTimerNode(ItemAt(t1, q).ser.value, u[q], log, next);
        }
      }
    }
  }

  lemma ArrivedNode(ser: SerializedNode, log: seq<Physical>, next: VT)
    requires SortedNode(ser) && forall o, x :: x in TasksOf(o, ser) ==> Less(x.vt, next)
    ensures TimerNode(ResetSer(ser), log, next)
    ensures NoStatus(ser) ==> TimerNode(ser, log, next)
  {
    hide Cmp;
    var r := ResetSer(ser);
    assert forall o :: TasksOf(o, r) == Reset(TasksOf(o, ser));
    ResetSorted(BySideEffect, TasksOf(BySideEffect, ser));
    ResetSorted(ByPure, TasksOf(ByPure, ser));
    forall o, x | x in TasksOf(o, r) ensures Less(x.vt, next) {
      var i :| 0 <= i < |TasksOf(o, r)| && TasksOf(o, r)[i] == x;
      assert TasksOf(o, ser)[i] in TasksOf(o, ser);
    }
    ResetTwice(ser);
    NoStatusIsLogged(r, log);
    if NoStatus(ser) {
      NoStatusIsLogged(ser, log);
    }
  }

  /** The physical tasks handed out since the last refresh. */
  ghost function LogAction(log: seq<Physical>, a: Tx.Action): seq<Physical> {
    match a
    case RefreshAll => []
    case CloseTx(_, run, _) => log + run.out
    case _ => log
  }

  ghost function LogAfter(log: seq<Physical>, actions: seq<Tx.Action>): seq<Physical>
    decreases |actions|
  {
    if actions == [] then log else LogAfter(LogAction(log, actions[0]), actions[1..])
  }

  lemma ActionTimers(w: Tx.World, a: Tx.Action, log: seq<Physical>)
    requires Steady(w.s, w.next) && TimerTree(w.s.root, log, w.next)
    requires Tx.Allowed(w, a) && Tx.Sendable(w, a)
    ensures var w' := Tx.Do(w, a); TimerTree(w'.s.root, LogAction(log, a), w'.next)
  {
    hide TimerTree, Steady, Tx.Refreshed, SyncSubComponents, Removed, Applied, Deliverable, Tx.Orderly;
    match a
    case Mutate(root) => MutateTimers(w.s.root, root, log, w.next);
    case SyncNow => SyncTimers(w.s.root, log, w.next);
    case RefreshAll => RefreshTimers(w, log);
    case Replicate(m) => ReplicationTimers(w.s.root, m.mid, m.end, m.deleted, m.updated, log, w.next);
    case CloseTx(c, run, after) => CloseTimers(w, c, run, log, after);
  }

  /** Over every run, with replication too, each created pure task has its timer out since the last refresh. */
  lemma {:induction false} EveryRunKeepsTimers(w: Tx.World, actions: seq<Tx.Action>, log: seq<Physical>)
    requires Steady(w.s, w.next) && TimerTree(w.s.root, log, w.next)
    requires Tx.AllowedRun(w, actions) && Tx.Along(w, actions, Tx.Sendable)
    ensures var w' := Tx.After(w, actions); TimerTree(w'.s.root, LogAfter(log, actions), w'.next)
    decreases |actions|
  {
    hide TimerTree, Steady, Tx.Do, Tx.Allowed, Tx.Sendable;
    if actions == [] {
    } else {
      ActionTimers(w, actions[0], log);
      Tx.ActionKeeps(w, actions[0]);
      EveryRunKeepsTimers(Tx.Do(w, actions[0]), actions[1..], LogAction(log, actions[0]));
    }
  }

  /** So at every close of every run a timer for the earliest pure task is out, and not from before a refresh. */
  lemma EarliestTimerAfterEveryRun(
    w: Tx.World, actions: seq<Tx.Action>, log: seq<Physical>, c: Closing, run: Run, after: VT)
    requires Steady(w.s, w.next) && TimerTree(w.s.root, log, w.next)
    requires Tx.AllowedRun(w, actions) && Tx.Along(w, actions, Tx.Sendable)
    requires Tx.Allowed(Tx.After(w, actions), Tx.CloseTx(c, run, after))
    ensures |Timers(run.out)| <= 1
    ensures NoPures(FinalNodes(run, c), FinalNodes(run, c).Keys)
      || exists e :: PureTimer(e) in LogAfter(log, actions) + run.out && IsEarliest(FinalNodes(run, c), e)
  {
    hide TimerTree, Steady, Tx.Do, FinalNodes, GoodRun, Timers, NoPures, IsEarliest;
    Tx.EveryRunIsSteady(w, actions);
    EveryRunKeepsTimers(w, actions, log);
    EarliestTimerIsOut(Tx.After(w, actions), c, run, LogAfter(log, actions), after);
  }
}
