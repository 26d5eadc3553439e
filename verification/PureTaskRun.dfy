/**
  Running the expired pure tasks of a tree. Each execution may change the tree, so the walk starts
  over after it; still every task is offered once and the walk ends.
 */
module PureTaskRun {
  import opened Wrappers
  import opened Versions
  import opened Tasks
  import opened Trees
  import opened StructureSync
  import opened Transactions
  import Tx = TransactionRuns

  /** Timers are kept to the millisecond. */
  const MIN_PRECISION: Time := 1_000_000

  function Truncate(time: Time): Time {
    time - time % MIN_PRECISION
  }

  predicate Expired(reference: Time, t: Task) {
    t.scheduled.Some? && Truncate(t.scheduled.value) <= Truncate(reference)
  }

  /** The tasks up to the first one that is not expired. */
  function ExpiredPrefix(reference: Time, tasks: seq<Task>): (r: seq<Task>)
    ensures |r| <= |tasks| && r == tasks[..|r|]
    ensures forall i :: 0 <= i < |r| ==> Expired(reference, tasks[i])
    ensures |r| < |tasks| ==> !Expired(reference, tasks[|r|])
  {
    if tasks == [] || !Expired(reference, tasks[0]) then []
    else [tasks[0]] + ExpiredPrefix(reference, tasks[1..])
  }

  /**
    Stopping at the first unexpired task of a sorted list misses no expired one, exactly when no
    task without a time comes before an expired task.
   */
  lemma PrefixIsAllExpiredIff(reference: Time, tasks: seq<Task>)
    requires Sorted(ByPure, tasks)
    ensures (forall i :: 0 <= i < |tasks| ==> (Expired(reference, tasks[i]) <==> i < |ExpiredPrefix(reference, tasks)|))
      <==> !exists i, j :: 0 <= i < j < |tasks| && tasks[i].scheduled.None? && Expired(reference, tasks[j])
  {
    var n := |ExpiredPrefix(reference, tasks)|;
    if n < |tasks| && tasks[n].scheduled.Some? {
      forall j | n <= j < |tasks| ensures !Expired(reference, tasks[j]) {
        if n < j && tasks[j].scheduled.Some? {
          assert Cmp(ByPure, tasks[n], tasks[j]) == -1;
          TruncateIsMonotone(tasks[n].scheduled.value, tasks[j].scheduled.value);
        }
      }
    }
  }

  lemma TruncateIsMonotone(a: Time, b: Time)
    requires a <= b
    ensures Truncate(a) <= Truncate(b)
  {
    var qa, qb := a / MIN_PRECISION, b / MIN_PRECISION;
    assert Truncate(a) == qa * MIN_PRECISION && Truncate(b) == qb * MIN_PRECISION;
  }

  // -------------------------------------------------------- one node

  /** What an execution does: it fails, or it leaves a tree and says whether it did its work. */
  datatype Outcome = Failed | Ran(root: Tree, executed: bool)

  /** Code outside the tree: filling in the value of a node, and executing one task. */
  datatype Handler = Handler(prepare: (Tree, Path) -> Option<Tree>, execute: (Tree, Path, Task) -> Outcome)

  /** Both change values only; structure and serialized forms follow later. */
  ghost predicate WellBehaved(h: Handler) {
    && (forall t, p :: h.prepare(t, p).Some? ==> Tx.Mutates(t, h.prepare(t, p).value))
    && (forall t, p, x :: h.execute(t, p, x).Ran? ==> Tx.Mutates(t, h.execute(t, p, x).root))
  }

  /** A node is told apart by where it is and when it was made. */
  type NodeId = (Path, Option<VT>)

  datatype Offer = Offer(id: NodeId, task: Task)

  function IdAt(t: Tree, p: Path): NodeId
    requires Has(t, p)
  {
    var ser := ItemAt(t, p).ser;
    (p, if ser.Some? then Some(ser.value.initial) else None)
  }

  function OffersOf(log: seq<Offer>, id: NodeId): seq<Task> {
    if log == [] then []
    else (if log[0].id == id then [log[0].task] else []) + OffersOf(log[1..], id)
  }

  function OfferAll(id: NodeId, tasks: seq<Task>): (r: seq<Offer>)
    ensures |r| == |tasks|
  {
    seq(|tasks|, i requires 0 <= i < |tasks| => Offer(id, tasks[i]))
  }

  lemma {:induction false} OffersConcat(a: seq<Offer>, b: seq<Offer>, id: NodeId)
    ensures OffersOf(a + b, id) == OffersOf(a, id) + OffersOf(b, id)
  {
    hide OffersOf;
    if a == [] {
      assert a + b == b;
      NoOffers(id);
    } else {
      OffersConcat(a[1..], b, id);
      OffersFirst(a, id);
      OffersFirst(a + b, id);
      assert (a + b)[1..] == a[1..] + b;
    }
  }

  lemma OffersFirst(log: seq<Offer>, id: NodeId)
    requires log != []
    ensures OffersOf(log, id) == (if log[0].id == id then [log[0].task] else []) + OffersOf(log[1..], id)
  {
  }

  lemma NoOffers(id: NodeId)
    ensures OffersOf([], id) == []
  {
  }

  lemma {:induction false} OffersOwn(id: NodeId, tasks: seq<Task>, other: NodeId)
    ensures OffersOf(OfferAll(id, tasks), other) == if other == id then tasks else []
  {
    if tasks == [] {
    } else {
      OffersOwn(id, tasks[1..], other);
      assert OfferAll(id, tasks)[1..] == OfferAll(id, tasks[1..]);
      assert tasks == [tasks[0]] + tasks[1..];
    }
  }

  lemma MutatesChain(a: Tree, b: Tree, c: Tree)
    requires Tx.Mutates(a, b) && Tx.Mutates(b, c)
    ensures Tx.Mutates(a, c)
  {
    hide Has, FindNode;
    forall p ensures Tx.MutatesAt(a, c, p) {
      assert Tx.MutatesAt(a, b, p) && Tx.MutatesAt(b, c, p);
    }
  }

  ghost predicate FilledIn(t: Tree) {
    forall p :: Has(t, p) ==> ItemAt(t, p).state != Undefined
  }

  lemma MutatesNothing(a: Tree)
    requires FilledIn(a)
    ensures Tx.Mutates(a, a)
  {
    forall p ensures Tx.MutatesAt(a, a, p) {
    }
  }

  lemma Prepares(h: Handler, t: Tree, p: Path)
    requires WellBehaved(h)
    ensures h.prepare(t, p).Some? ==> Tx.Mutates(t, h.prepare(t, p).value)
  {
    hide Tx.Mutates;
  }

  lemma Executes(h: Handler, t: Tree, p: Path, x: Task)
    requires WellBehaved(h)
    ensures h.execute(t, p, x).Ran? ==> Tx.Mutates(t, h.execute(t, p, x).root)
  {
    hide Tx.Mutates;
  }

  method EachNodePureTask(root: Tree, p: Path, reference: Time, h: Handler)
    returns (r: Result<Tree>, offers: seq<Offer>, executed: bool)
    requires WellBehaved(h) && Has(root, p) && FilledIn(root)
    ensures r.Success? ==>
      && Tx.Mutates(root, r.value)
      && offers == OfferAll(IdAt(root, p), ExpiredPrefix(reference, PuresOf(ItemAt(root, p))))
      && (executed ==> PuresOf(ItemAt(root, p)) != [])
  {
    hide Tx.Mutates, Has, FindNode, Expired, WellBehaved, FilledIn;
    offers, executed := [], false;
    MutatesNothing(root);
    var item := ItemAt(root, p);
    if !IsComponent(item) {
      return Success(root), offers, executed;
    }
    var ready := h.prepare(root, p);
    if ready.None? {
      return Failure("component value cannot be prepared"), offers, executed;
    }
    Prepares(h, root, p);
    var t, tasks := ready.value, PuresOf(item);
    var i := 0;
    ghost var due := ExpiredPrefix(reference, tasks);
    while i < |tasks|
      invariant 0 <= i <= |due|
      invariant Tx.Mutates(root, t)
      invariant offers == OfferAll(IdAt(root, p), due[..i])
      invariant executed ==> i > 0
    {
      if !Expired(reference, tasks[i]) {
        break;
      }
      assert i < |due|;
      offers := offers + [Offer(IdAt(root, p), tasks[i])];
      assert due[..i + 1] == due[..i] + [tasks[i]];
      var outcome := h.execute(t, p, tasks[i]);
      if outcome.Failed? {
        return Failure("task execution failed"), offers, executed;
      }
      Executes(h, t, p, tasks[i]);
      MutatesChain(root, t, outcome.root);
      t, executed := outcome.root, executed || outcome.executed;
      i := i + 1;
    }
    assert due[..i] == due;
    r := Success(t);
  }

  // ------------------------------------------------------ the whole walk

  /** Every node has the serialized form it had at the start, or was made since and has no tasks. */
  ghost predicate LineageAt(t0: Tree, t: Tree, next: VT, p: Path) {
    Has(t, p) ==>
      var item := ItemAt(t, p);
      && item.state != Undefined
      && ((Has(t0, p) && ItemAt(t0, p).ser == item.ser)
          || (item.ser.Some? && item.ser.value.initial == next && PuresOf(item) == []))
  }

  ghost predicate Lineage(t0: Tree, t: Tree, next: VT) {
    forall p :: LineageAt(t0, t, next, p)
  }

  /** At the start nodes are filled in, and those with tasks were made in earlier transactions. */
  ghost predicate Startable(t: Tree, next: VT) {
    forall p :: Has(t, p) ==>
      && ItemAt(t, p).state != Undefined
      && (PuresOf(ItemAt(t, p)) != [] ==> Less(ItemAt(t, p).ser.value.initial, next))
  }

  lemma StartLineage(t0: Tree, next: VT)
    requires Startable(t0, next)
    ensures Lineage(t0, t0, next)
  {
    hide Has, FindNode;
    forall p ensures LineageAt(t0, t0, next, p) {
    }
  }

  lemma MutateLineage(t0: Tree, t: Tree, t': Tree, next: VT)
    requires Lineage(t0, t, next) && Tx.Mutates(t, t')
    ensures Lineage(t0, t', next)
  {
    hide Has, FindNode;
    forall p ensures LineageAt(t0, t', next, p) {
      assert LineageAt(t0, t, next, p) && Tx.MutatesAt(t, t', p);
    }
  }

  lemma SyncLineage(t0: Tree, t: Tree, next: VT)
    requires Lineage(t0, t, next)
    ensures Lineage(t0, SyncSubComponents(t, next), next)
  {
    hide Has, FindNode, Where, SyncSubComponents;
    forall p ensures LineageAt(t0, SyncSubComponents(t, next), next, p) {
      assert LineageAt(t0, t, next, p);
      SyncPath(t, next, p);
    }
  }

  lemma LineageIsFilledIn(t0: Tree, t: Tree, next: VT)
    requires Lineage(t0, t, next)
    ensures FilledIn(t)
  {
    hide Has, FindNode;
    forall p | Has(t, p) ensures ItemAt(t, p).state != Undefined {
      assert LineageAt(t0, t, next, p);
    }
  }

  function TasksAt(t: Tree, id: NodeId): seq<Task> {
    if Has(t, id.0) && IdAt(t, id.0) == id then PuresOf(ItemAt(t, id.0)) else []
  }

  /** The nodes that have tasks. */
  function Tasked(t: Tree): (r: set<NodeId>)
    ensures forall id :: id in r <==> TasksAt(t, id) != []
  {
    var r := set p | p in Paths(t) && PuresOf(ItemAt(t, p)) != [] :: IdAt(t, p);
    assert forall id :: TasksAt(t, id) != [] ==> id.0 in Paths(t) && IdAt(t, id.0) in r;
    r
  }

  /** A node keeps the tasks it had at the start, or goes; none gains any. */
  lemma LineageTasks(t0: Tree, t: Tree, next: VT, p: Path)
    requires Lineage(t0, t, next) && Startable(t0, next) && Has(t, p)
    ensures PuresOf(ItemAt(t, p)) == TasksAt(t0, IdAt(t, p))
  {
    hide Has, FindNode;
    assert LineageAt(t0, t, next, p);
  }

  lemma SameIds(t: Tree, t': Tree, p: Path)
    requires Tx.Mutates(t, t')
    ensures Has(t', p) <==> Has(t, p)
    ensures Has(t, p) ==> IdAt(t', p) == IdAt(t, p)
  {
    hide Has, FindNode;
    assert Tx.MutatesAt(t, t', p);
  }

  lemma SameTasked(t: Tree, t': Tree)
    requires Tx.Mutates(t, t')
    ensures Tasked(t') == Tasked(t) && Paths(t') == Paths(t)
  {
    hide Has, FindNode, Tasked, Paths;
    forall id: NodeId ensures TasksAt(t', id) == TasksAt(t, id) {
      assert Tx.MutatesAt(t, t', id.0);
    }
    forall p: Path ensures p in Paths(t') <==> p in Paths(t) {
      assert Tx.MutatesAt(t, t', p);
    }
  }

  /** Adding structure adds no tasks. */
  lemma SyncTasked(t: Tree, next: VT)
    ensures Tasked(SyncSubComponents(t, next)) <= Tasked(t)
  {
    hide Has, FindNode, Where, SyncSubComponents, Tasked;
    var s := SyncSubComponents(t, next);
    forall id: NodeId | TasksAt(s, id) != [] ensures TasksAt(t, id) != [] {
      SyncPath(t, next, id.0);
    }
  }

  /** What has been offered so far: the due tasks of each processed node, once. */
  ghost predicate OfferedSoFar(t0: Tree, reference: Time, processed: set<NodeId>, log: seq<Offer>) {
    forall id :: OffersOf(log, id) == if id in processed then ExpiredPrefix(reference, TasksAt(t0, id)) else []
  }

  lemma OfferedStep(t0: Tree, reference: Time, processed: set<NodeId>, log: seq<Offer>, id: NodeId)
    requires OfferedSoFar(t0, reference, processed, log) && id !in processed
    ensures OfferedSoFar(t0, reference, processed + {id}, log + OfferAll(id, ExpiredPrefix(reference, TasksAt(t0, id))))
  {
    hide OffersOf, ExpiredPrefix, TasksAt;
    var own := OfferAll(id, ExpiredPrefix(reference, TasksAt(t0, id)));
    forall other ensures OffersOf(log + own, other) ==
      if other in processed + {id} then ExpiredPrefix(reference, TasksAt(t0, other)) else []
    {
      OffersConcat(log, own, other);
      OffersOwn(id, ExpiredPrefix(reference, TasksAt(t0, id)), other);
      assert OffersOf(log, other) + [] == OffersOf(log, other);
    }
  }

  lemma NothingOffered(t0: Tree, reference: Time)
    ensures OfferedSoFar(t0, reference, {}, [])
  {
  }

  /** Every node not still to visit has been processed. */
  ghost predicate Visits(t: Tree, todo: set<Path>, processed: set<NodeId>) {
    forall p :: Has(t, p) && p !in todo ==> IdAt(t, p) in processed
  }

  lemma VisitsKept(t: Tree, t': Tree, todo: set<Path>, processed: set<NodeId>)
    requires Visits(t, todo, processed) && Tx.Mutates(t, t')
    ensures Visits(t', todo, processed)
  {
    hide Has, FindNode, Tx.Mutates;
    forall p | Has(t', p) && p !in todo ensures IdAt(t', p) in processed {
      SameIds(t, t', p);
    }
  }

  lemma AllToVisit(t: Tree, processed: set<NodeId>)
    ensures Visits(t, Paths(t), processed)
  {
    hide Has, FindNode, Paths;
  }

  lemma VisitOne(t: Tree, todo: set<Path>, processed: set<NodeId>, p: Path)
    requires Visits(t, todo, processed) && p in todo && todo <= Paths(t)
    ensures Has(t, p) && Visits(t, todo - {p}, processed + {IdAt(t, p)})
  {
    hide Has, FindNode, Paths;
  }

  lemma AllVisited(t: Tree, processed: set<NodeId>)
    requires Visits(t, {}, processed)
    ensures forall p :: Has(t, p) ==> IdAt(t, p) in processed
  {
  }

  lemma Smaller<T>(a: set<T>, b: set<T>)
    requires a <= b
    ensures |a| <= |b|
  {
    assert b == a + (b - a);
  }

  /** One node handled: what the loop of EachPureTask keeps. */
  lemma OneLess(t0: Tree, t: Tree, t': Tree, next: VT, p: Path, processed: set<NodeId>, left: set<NodeId>)
    requires Has(t, p) && Tx.Mutates(t, t') && left == Tasked(t) - processed && IdAt(t, p) !in processed
    ensures Tasked(t') - (processed + {IdAt(t, p)}) == left - {IdAt(t, p)}
    ensures PuresOf(ItemAt(t, p)) != [] ==> IdAt(t, p) in left
  {
    hide Tasked, Tx.Mutates, Has, FindNode;
    SameTasked(t, t');
    assert PuresOf(ItemAt(t, p)) == TasksAt(t, IdAt(t, p));
  }

  method EachPureTask(t0: Tree, next: VT, reference: Time, h: Handler)
    returns (r: Result<Tree>, offers: seq<Offer>, processed: set<NodeId>, restarts: nat)
    requires WellBehaved(h) && Startable(t0, next)
    ensures r.Success? ==>
      && OfferedSoFar(t0, reference, processed, offers)
      && (forall p :: Has(r.value, p) ==> IdAt(r.value, p) in processed)
      && Lineage(t0, r.value, next)
      && restarts <= |Tasked(t0)|
  {
    hide *;
    var t, todo := t0, Paths(t0);
    offers, processed, restarts := [], {}, 0;
    StartLineage(t0, next);
    NothingOffered(t0, reference);
    AllToVisit(t, processed);
    while todo != {}
      invariant Lineage(t0, t, next) && todo <= Paths(t)
      invariant OfferedSoFar(t0, reference, processed, offers)
      invariant Visits(t, todo, processed)
      invariant restarts + |Tasked(t) - processed| <= |Tasked(t0)|
      decreases Tasked(t) - processed, todo
    {
      var p :| p in todo;
      VisitOne(t, todo, processed, p);
      var id := IdAt(t, p);
      ghost var left := Tasked(t) - processed;
      todo := todo - {p};
      if id !in processed {
        LineageIsFilledIn(t0, t, next);
        var result, own, executed := EachNodePureTask(t, p, reference, h);
        if result.Failure? {
          return Failure(result.error), offers + own, processed + {id}, restarts;
        }
        LineageTasks(t0, t, next, p);
        OfferedStep(t0, reference, processed, offers, id);
        MutateLineage(t0, t, result.value, next);
        OneLess(t0, t, result.value, next, p, processed, left);
        SameTasked(t, result.value);
        VisitsKept(t, result.value, todo, processed + {id});
        Smaller(left - {id}, left);
        processed, offers, t := processed + {id}, offers + own, result.value;
        if executed {
          assert id in left;
          SyncLineage(t0, t, next);
          SyncTasked(t, next);
          Smaller(Tasked(SyncSubComponents(t, next)) - processed, left - {id});
          t := SyncSubComponents(t, next);
          todo, restarts := Paths(t), restarts + 1;
          AllToVisit(t, processed);
        }
      } else {
        assert processed + {id} == processed;
      }
    }
    AllVisited(t, processed);
    r := Success(t);
  }
}
