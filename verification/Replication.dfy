/**
  Applying another cluster's nodes to the tree: deletions first, then updates in any order, with
  task status kept local.
 */
module Replication {
  import opened Wrappers
  import opened Versions
  import opened Tasks
  import opened TaskLists
  import opened Trees
  import opened StructureSync
  import opened Transactions

  type Updates = map<Path, SerializedNode>

  // ---------------------------------------------- what is replicated

  /** A task without what is local to a cluster: its status and the address of its data. */
  function Portable(t: Task): Task {
    t.(status := NotCreated, data := Blob(0, t.data.bytes))
  }

  function PortableTasks(tasks: seq<Task>): (r: seq<Task>)
    ensures |r| == |tasks|
  {
    seq(|tasks|, i requires 0 <= i < |tasks| => Portable(tasks[i]))
  }

  /** The replicated content of a node. */
  function Replicated(ser: SerializedNode): SerializedNode {
    match ser.attrs
    case ComponentAttributes(typ, sideEffects, pures) =>
      ser.(attrs := ComponentAttributes(typ, PortableTasks(sideEffects), PortableTasks(pures)))
    case _ => ser
  }

  function TasksOf(o: Order, ser: SerializedNode): seq<Task> {
    match ser.attrs
    case ComponentAttributes(_, sideEffects, pures) => if o == BySideEffect then sideEffects else pures
    case _ => []
  }

  function ResetSer(ser: SerializedNode): SerializedNode {
    match ser.attrs
    case ComponentAttributes(typ, sideEffects, pures) =>
      ser.(attrs := ComponentAttributes(typ, Reset(sideEffects), Reset(pures)))
    case _ => ser
  }

  /** The incoming node with the local status of the tasks both know. */
  function CarrySer(local: SerializedNode, incoming: SerializedNode): SerializedNode {
    if local.attrs.ComponentAttributes? && incoming.attrs.ComponentAttributes? then
      incoming.(attrs := incoming.attrs.(
        sideEffects := CarryOver(BySideEffect, local.attrs.sideEffects, incoming.attrs.sideEffects),
        pures := CarryOver(ByPure, local.attrs.pures, incoming.attrs.pures)))
    else incoming
  }

  ghost predicate SortedNode(ser: SerializedNode) {
    Sorted(BySideEffect, TasksOf(BySideEffect, ser)) && Sorted(ByPure, TasksOf(ByPure, ser))
  }

  /** Tasks with the same key are the same task. */
  ghost predicate SamePayload(a: SerializedNode, b: SerializedNode) {
    forall o, s, t :: s in TasksOf(o, a) && t in TasksOf(o, b) && Cmp(o, s, t) == 0 ==> s.data.bytes == t.data.bytes
  }

  lemma ResetIsReplicated(ser: SerializedNode)
    ensures Replicated(ResetSer(ser)) == Replicated(ser) && ResetSer(ser).last == ser.last
  {
    if ser.attrs.ComponentAttributes? {
      assert PortableTasks(Reset(ser.attrs.sideEffects)) == PortableTasks(ser.attrs.sideEffects);
      assert PortableTasks(Reset(ser.attrs.pures)) == PortableTasks(ser.attrs.pures);
    }
  }

  lemma CarryIsPortable(o: Order, local: seq<Task>, incoming: seq<Task>)
    requires forall s, t :: s in local && t in incoming && Cmp(o, s, t) == 0 ==> s.data.bytes == t.data.bytes
    ensures PortableTasks(CarryOver(o, local, incoming)) == PortableTasks(incoming)
  {
    hide Cmp;
    var r := CarryOver(o, local, incoming);
    forall i | 0 <= i < |incoming| ensures Portable(r[i]) == Portable(incoming[i]) {
      assert incoming[i] in incoming;
    }
  }

  /** Carrying status over leaves the replicated content as it came. */
  lemma CarryIsReplicated(local: SerializedNode, incoming: SerializedNode)
    requires SamePayload(local, incoming)
    ensures Replicated(CarrySer(local, incoming)) == Replicated(incoming)
    ensures CarrySer(local, incoming).last == incoming.last
  {
    hide CarryOver, Cmp;
    if local.attrs.ComponentAttributes? && incoming.attrs.ComponentAttributes? {
      CarryIsPortable(BySideEffect, TasksOf(BySideEffect, local), TasksOf(BySideEffect, incoming));
      CarryIsPortable(ByPure, TasksOf(ByPure, local), TasksOf(ByPure, incoming));
    }
  }

  // ---------------------------------------------------------- updates

  predicate SameVersion(item: Item, ser: SerializedNode) {
    item.ser.Some? && Compare(item.ser.value.last, ser.last) == 0
  }

  function Incoming(item: Item, ser: SerializedNode): Item {
    Item(Some(if item.ser.Some? then CarrySer(item.ser.value, ser) else ser), None, NeedDeserialize)
  }

  /** One update: a missing node is placed with its status reset, a node of another version replaced. */
  function ApplyUpdate(t: Tree, p: Path, ser: SerializedNode): Tree {
    if !Has(t, p) then SetSerialized(t, p, ResetSer(ser))
    else if SameVersion(ItemAt(t, p), ser) then t
    else UpdateAt(t, p, Incoming(ItemAt(t, p), ser))
  }

  /** The same update, with the node it finds. */
  lemma UpdatedPath(t: Tree, p: Path, ser: SerializedNode, q: Path)
    ensures Has(ApplyUpdate(t, p, ser), q) <==> Has(t, q) || q <= p
    ensures q == p ==>
      ItemAt(ApplyUpdate(t, p, ser), q) ==
        if !Has(t, p) then Item(Some(ResetSer(ser)), None, NeedDeserialize)
        else if SameVersion(ItemAt(t, p), ser) then ItemAt(t, p)
        else Incoming(ItemAt(t, p), ser)
    ensures q != p && (Has(t, q) || q <= p) ==>
      ItemAt(ApplyUpdate(t, p, ser), q) == if Has(t, q) then ItemAt(t, q) else PLACEHOLDER
  {
    hide ResetSer, CarrySer, Incoming;
    if !Has(t, p) {
      SetPath(t, p, ResetSer(ser), q);
    } else {
      if q <= p {
        TreeIsPrefixClosed(t, p, |q|);
        assert p[..|q|] == q;
      }
      UpdatePath(t, p, Incoming(ItemAt(t, p), ser), q);
    }
  }

  /** How a node looks after the updates in `done`, whatever their order. */
  ghost predicate AppliedItem(t0: Tree, u: Updates, done: set<Path>, q: Path, item: Item) {
    if q in done && q in u then
      if Has(t0, q) && ItemAt(t0, q).ser.Some? then
        item == if SameVersion(ItemAt(t0, q), u[q]) then ItemAt(t0, q) else Incoming(ItemAt(t0, q), u[q])
      else
        && item.value.None? && item.state == NeedDeserialize
        && (item.ser == Some(ResetSer(u[q])) || (item.ser == Some(u[q]) && AwaitsKid(t0, u, q)))
    else if Has(t0, q) then item == ItemAt(t0, q)
    else item == PLACEHOLDER
  }

  /** An update below `q` can come first and leave an empty node at `q`; so can an empty node already there. */
  ghost predicate AwaitsKid(t0: Tree, u: Updates, q: Path) {
    Has(t0, q) || exists p :: p in u && q <= p && q != p
  }

  ghost predicate Covered(s: set<Path>, q: Path) {
    exists p :: p in s && q <= p
  }

  ghost predicate Applied(t0: Tree, t: Tree, u: Updates, done: set<Path>) {
    forall q :: AppliedAt(t0, t, u, done, q)
  }

  ghost predicate AppliedAt(t0: Tree, t: Tree, u: Updates, done: set<Path>, q: Path) {
    && (Has(t, q) <==> Has(t0, q) || Covered(done, q))
    && (Has(t, q) ==> AppliedItem(t0, u, done, q, ItemAt(t, q)))
  }

  lemma AppliedStart(t: Tree, u: Updates)
    ensures Applied(t, t, u, {})
  {
    forall q ensures AppliedAt(t, t, u, {}, q) {
    }
  }

  lemma AppliedStep(t0: Tree, t: Tree, u: Updates, done: set<Path>, p: Path)
    requires Applied(t0, t, u, done) && p in u && p !in done && done <= u.Keys
    ensures Applied(t0, ApplyUpdate(t, p, u[p]), u, done + {p})
  {
    hide ApplyUpdate, Has, FindNode;
    forall q ensures AppliedAt(t0, ApplyUpdate(t, p, u[p]), u, done + {p}, q) {
      AppliedStepAt(t0, t, u, done, p, q);
    }
  }

  lemma AppliedStepAt(t0: Tree, t: Tree, u: Updates, done: set<Path>, p: Path, q: Path)
    requires Applied(t0, t, u, done) && p in u && p !in done && done <= u.Keys
    ensures AppliedAt(t0, ApplyUpdate(t, p, u[p]), u, done + {p}, q)
  {
    hide ApplyUpdate, Has, FindNode, ResetSer, CarrySer, Compare;
    assert AppliedAt(t0, t, u, done, q) && AppliedAt(t0, t, u, done, p);
    UpdatedPath(t, p, u[p], q);
    assert Covered(done + {p}, q) <==> Covered(done, q) || q <= p by {
      if r :| r in done && q <= r {
        assert r in done + {p};
      }
      if q <= p {
        assert p in done + {p};
      }
    }
    if q == p && Has(t, p) && !Has(t0, p) {
      var r :| r in done && p <= r;
      assert r in u && r != p;
    }
  }

  function Changed(t: Tree, u: Updates): set<Path> {
    set p | p in u && !(Has(t, p) && SameVersion(ItemAt(t, p), u[p]))
  }

  ghost predicate SortedTree(t: Tree) {
    forall p :: Has(t, p) && ItemAt(t, p).ser.Some? ==> SortedNode(ItemAt(t, p).ser.value)
  }

  /** Both lists of a node that exists already take over the local status. */
  method CarryNode(local: SerializedNode, incoming: SerializedNode, cache: set<nat>)
    returns (ser: SerializedNode, kept: set<nat>)
    requires SortedNode(local) && SortedNode(incoming)
    ensures ser == CarrySer(local, incoming)
  {
    hide CarryOver, Sorted;
    ser, kept := incoming, cache;
    match (local.attrs, incoming.attrs)
    case (ComponentAttributes(_, ls, lp), ComponentAttributes(_, ns, np)) =>
      assert Sorted(BySideEffect, TasksOf(BySideEffect, local)) && Sorted(ByPure, TasksOf(ByPure, local));
      assert Sorted(BySideEffect, TasksOf(BySideEffect, incoming)) && Sorted(ByPure, TasksOf(ByPure, incoming));
      var sideEffects, pures;
      sideEffects, kept := CarryOverTaskStatus(BySideEffect, ls, ns, kept);
      pures, kept := CarryOverTaskStatus(ByPure, lp, np, kept);
      ser := incoming.(attrs := incoming.attrs.(sideEffects := sideEffects, pures := pures));
    case _ =>
  }

  /** The keys some incoming nodes came under; `items` are the paths written as collection items. */
  function KeysFor(s: set<Path>, items: set<Path>): (r: set<NodeKey>)
    ensures forall k :: k in r <==> k.path in s && (k.item <==> k.path in items)
  {
    var r := set p | p in s :: NodeKey(p, p in items);
    assert forall k: NodeKey :: k.path in s && (k.item <==> k.path in items) ==>
      k == NodeKey(k.path, k.path in items) && k in r;
    r
  }

  method ApplyUpdates(t0: Tree, u: Updates, items: set<Path>, updated: map<NodeKey, Entry>, cache: set<nat>)
    returns (t: Tree, updated': map<NodeKey, Entry>, kept: set<nat>)
    requires SortedTree(t0) && forall p :: p in u ==> SortedNode(u[p])
    ensures Applied(t0, t, u, u.Keys)
    ensures updated' == AllLive(updated, KeysFor(Changed(t0, u), items))
  {
    hide Applied, Has, FindNode, SameVersion, CarrySer, ResetSer, AllLive, SortedTree, SortedNode, KeysFor;
    var todo := u.Keys;
    t, updated', kept := t0, updated, cache;
    AppliedStart(t0, u);
    ChangedStart(t0, u, items, updated);
    assert u.Keys - todo == {};
    while todo != {}
      invariant todo <= u.Keys
      invariant Applied(t0, t, u, u.Keys - todo)
      invariant updated' == AllLive(updated, KeysFor(Changed(t0, u) - todo, items))
      decreases todo
    {
      var p :| p in todo;
      AppliedStep(t0, t, u, u.Keys - todo, p);
      StillToDo(t0, t, u, u.Keys - todo, p);
      ChangedStep(t0, u, items, updated, todo, p);
      assert u.Keys - todo + {p} == u.Keys - (todo - {p});
      if !Has(t, p) {
        t := SetSerialized(t, p, ResetSer(u[p]));
        updated' := updated'[NodeKey(p, p in items) := Live];
      } else if !SameVersion(ItemAt(t, p), u[p]) {
        var ser := u[p];
        if ItemAt(t, p).ser.Some? {
          ser, kept := CarryNode(ItemAt(t, p).ser.value, ser, kept);
        }
        t := UpdateAt(t, p, Item(Some(ser), None, NeedDeserialize));
        updated' := updated'[NodeKey(p, p in items) := Live];
      }
      todo := todo - {p};
    }
    assert u.Keys - todo == u.Keys && Changed(t0, u) - todo == Changed(t0, u);
  }

  lemma ChangedStart(t0: Tree, u: Updates, items: set<Path>, updated: map<NodeKey, Entry>)
    ensures AllLive(updated, KeysFor(Changed(t0, u) - u.Keys, items)) == updated
  {
    assert Changed(t0, u) - u.Keys == {};
    assert KeysFor({}, items) == {};
  }

  lemma ChangedStep(t0: Tree, u: Updates, items: set<Path>, updated: map<NodeKey, Entry>, todo: set<Path>, p: Path)
    requires p in todo && p in u
    ensures AllLive(updated, KeysFor(Changed(t0, u) - (todo - {p}), items)) ==
      if p in Changed(t0, u)
      then AllLive(updated, KeysFor(Changed(t0, u) - todo, items))[NodeKey(p, p in items) := Live]
      else AllLive(updated, KeysFor(Changed(t0, u) - todo, items))
  {
    hide KeysFor, SameVersion, Has, FindNode;
    var before, after := Changed(t0, u) - todo, Changed(t0, u) - (todo - {p});
    if p in Changed(t0, u) {
      assert KeysFor(after, items) == KeysFor(before, items) + {NodeKey(p, p in items)};
    } else {
      assert after == before;
    }
  }

  /** Before its own update a path looks as it did, or is an empty node some update below it made. */
  lemma StillToDo(t0: Tree, t: Tree, u: Updates, done: set<Path>, p: Path)
    requires Applied(t0, t, u, done) && p in u && p !in done && SortedTree(t0)
    ensures p in Changed(t0, u) <==> !(Has(t, p) && SameVersion(ItemAt(t, p), u[p]))
    ensures Has(t, p) && ItemAt(t, p).ser.Some? ==> SortedNode(ItemAt(t, p).ser.value)
  {
    hide Has, FindNode, SortedNode, Compare;
    assert AppliedAt(t0, t, u, done, p);
  }

  // -------------------------------------------------------- deletions

  /** A deletion of `q` itself or of an ancestor; the root node is never detached. */
  ghost predicate Hit(d: set<Path>, q: Path) {
    q != [] && exists p :: p in d && p <= q
  }

  ghost predicate RemovedAt(t0: Tree, t: Tree, d: set<Path>, q: Path) {
    && (Has(t, q) <==> Has(t0, q) && !Hit(d, q))
    && (Has(t, q) ==> ItemAt(t, q) == ItemAt(t0, q))
  }

  ghost predicate Removed(t0: Tree, t: Tree, d: set<Path>) {
    forall q :: RemovedAt(t0, t, d, q)
  }

  function AllBelow(t: Tree, d: set<Path>): (r: set<NodeKey>)
    ensures forall k :: k in r <==> InTree(t, k) && exists p :: p in d && p <= k.path
  {
    set q | q in Paths(t) && exists p :: p in d && p <= q :: KeyAt(t, q)
  }

  /** The keys a deletion reports: those of the node and of everything that was below it. */
  function KeysBelow(t: Tree, p: Path): (r: set<NodeKey>)
    ensures forall k :: k in r <==> InTree(t, k) && p <= k.path
  {
    set q | q in Below(t, p) :: KeyAt(t, q)
  }

  method ApplyDeletions(t0: Tree, d: set<Path>, deleted: set<NodeKey>) returns (t: Tree, deleted': set<NodeKey>)
    ensures Removed(t0, t, d)
    ensures deleted' == deleted + AllBelow(t0, d)
  {
    hide Has, FindNode, Removed, AllBelow, Delete, KeysBelow;
    var todo := d;
    t, deleted' := t0, deleted;
    NothingRemoved(t0, deleted);
    assert d - todo == {};
    while todo != {}
      invariant todo <= d
      invariant Removed(t0, t, d - todo)
      invariant deleted' == deleted + AllBelow(t0, d - todo)
      decreases todo
    {
      var p :| p in todo;
      RemovedStep(t0, t, d - todo, p);
      assert d - todo + {p} == d - (todo - {p});
      if Has(t, p) {
        deleted' := deleted' + KeysBelow(t, p);
        t := Delete(t, p);
      }
      todo := todo - {p};
    }
    assert d - todo == d;
  }

  lemma NothingRemoved(t: Tree, deleted: set<NodeKey>)
    ensures Removed(t, t, {}) && deleted + AllBelow(t, {}) == deleted
  {
    forall q ensures RemovedAt(t, t, {}, q) {
    }
  }

  /** What is left keeps its key. */
  lemma RemovedKey(t0: Tree, t: Tree, d: set<Path>, q: Path)
    requires Removed(t0, t, d) && Has(t, q)
    ensures KeyAt(t, q) == KeyAt(t0, q)
  {
    hide Has, FindNode;
    if |q| > 1 {
      TreeIsPrefixClosed(t, q, |q| - 1);
      assert RemovedAt(t0, t, d, q[..|q| - 1]);
    }
  }

  lemma RemovedStep(t0: Tree, t: Tree, d: set<Path>, p: Path)
    requires Removed(t0, t, d)
    ensures Removed(t0, if Has(t, p) then Delete(t, p) else t, d + {p})
    ensures AllBelow(t0, d) + (if Has(t, p) then KeysBelow(t, p) else {}) == AllBelow(t0, d + {p})
  {
    hide Has, FindNode, Delete, AllBelow, KeysBelow, KeyAt;
    var t' := if Has(t, p) then Delete(t, p) else t;
    forall q ensures RemovedAt(t0, t', d + {p}, q) {
      RemovedStepAt(t0, t, d, p, q);
    }
    forall k ensures k in AllBelow(t0, d + {p}) <==> k in AllBelow(t0, d) || (Has(t, p) && k in KeysBelow(t, p)) {
      RemovedStepAt(t0, t, d, p, k.path);
      assert RemovedAt(t0, t, d, k.path);
      if Has(t, k.path) {
        RemovedKey(t0, t, d, k.path);
      }
    }
  }

  lemma RemovedStepAt(t0: Tree, t: Tree, d: set<Path>, p: Path, q: Path)
    requires Removed(t0, t, d)
    ensures RemovedAt(t0, if Has(t, p) then Delete(t, p) else t, d + {p}, q)
    ensures Has(t0, q) ==>
      ((exists r :: r in d + {p} && r <= q) <==> (exists r :: r in d && r <= q) || (Has(t, p) && Has(t, q) && p <= q))
  {
    hide FindNode, Delete;
    assert RemovedAt(t0, t, d, q) && RemovedAt(t0, t, d, p);
    DeletePath(t, p, q);
    assert forall r :: r in d + {p} <==> r in d || r == p;
    if p <= q {
      assert q[..|p|] == p;
      if Has(t, q) {
        TreeIsPrefixClosed(t, q, |p|);
      }
      if Has(t0, q) && !Has(t, p) {
        TreeIsPrefixClosed(t0, q, |p|);
        var r :| r in d && r <= p;
        assert r <= q;
      }
    }
  }

  lemma RemovedIsSorted(t0: Tree, t: Tree, d: set<Path>)
    requires Removed(t0, t, d) && SortedTree(t0)
    ensures SortedTree(t)
  {
    hide SortedNode, Has, FindNode;
    forall p | Has(t, p) && ItemAt(t, p).ser.Some? ensures SortedNode(ItemAt(t, p).ser.value) {
      assert RemovedAt(t0, t, d, p);
    }
  }

  // ------------------------------------------------ lists stay in order

  lemma ResetSorted(o: Order, tasks: seq<Task>)
    requires Sorted(o, tasks)
    ensures Sorted(o, Reset(tasks))
  {
    forall i, j | 0 <= i < j < |tasks| ensures Cmp(o, Reset(tasks)[i], Reset(tasks)[j]) == -1 {
      assert Cmp(o, tasks[i], tasks[j]) == -1;
    }
  }

  lemma CarrySorted(o: Order, local: seq<Task>, incoming: seq<Task>)
    requires Sorted(o, incoming)
    ensures Sorted(o, CarryOver(o, local, incoming))
  {
    var r := CarryOver(o, local, incoming);
    forall i, j | 0 <= i < j < |r| ensures Cmp(o, r[i], r[j]) == -1 {
      assert Cmp(o, incoming[i], incoming[j]) == -1;
    }
  }

  lemma ResetNodeSorted(ser: SerializedNode)
    requires SortedNode(ser)
    ensures SortedNode(ResetSer(ser))
  {
    if ser.attrs.ComponentAttributes? {
      ResetSorted(BySideEffect, TasksOf(BySideEffect, ser));
      ResetSorted(ByPure, TasksOf(ByPure, ser));
    }
  }

  lemma CarryNodeSorted(local: SerializedNode, incoming: SerializedNode)
    requires SortedNode(incoming)
    ensures SortedNode(CarrySer(local, incoming))
  {
    hide Sorted, CarryOver;
    if local.attrs.ComponentAttributes? && incoming.attrs.ComponentAttributes? {
      CarrySorted(BySideEffect, TasksOf(BySideEffect, local), TasksOf(BySideEffect, incoming));
      CarrySorted(ByPure, TasksOf(ByPure, local), TasksOf(ByPure, incoming));
    }
  }

  /** Sorted updates leave a sorted tree sorted. */
  lemma AppliedIsSorted(t0: Tree, t: Tree, u: Updates)
    requires Applied(t0, t, u, u.Keys) && SortedTree(t0) && forall p :: p in u ==> SortedNode(u[p])
    ensures SortedTree(t)
  {
    hide SortedNode, Has, FindNode, ResetSer, CarrySer, SameVersion;
    forall p | Has(t, p) && ItemAt(t, p).ser.Some? ensures SortedNode(ItemAt(t, p).ser.value) {
      assert AppliedAt(t0, t, u, u.Keys, p);
      if p in u {
        ResetNodeSorted(u[p]);
        if Has(t0, p) && ItemAt(t0, p).ser.Some? {
          CarryNodeSorted(ItemAt(t0, p).ser.value, u[p]);
        }
      }
    }
  }

  // --------------------------------------- where the order does matter

  predicate NoStatus(ser: SerializedNode) {
    ResetSer(ser) == ser
  }

  /**
    A new node whose child arrives first keeps the status the other cluster sent; if it arrives
    first itself the status is reset. The order shows exactly when the sender left a status in.
   */
  lemma ChildFirstKeepsForeignStatus(t: Tree, p: Path, k: Name, ser: SerializedNode, kid: SerializedNode)
    requires !Has(t, p)
    ensures var childFirst, parentFirst :=
              ApplyUpdate(ApplyUpdate(t, p + [k], kid), p, ser), ApplyUpdate(ApplyUpdate(t, p, ser), p + [k], kid);
      && Has(childFirst, p) && ItemAt(childFirst, p).ser == Some(ser)
      && Has(parentFirst, p) && ItemAt(parentFirst, p).ser == Some(ResetSer(ser))
      && (ItemAt(childFirst, p).ser == ItemAt(parentFirst, p).ser <==> NoStatus(ser))
  {
    hide ApplyUpdate, FindNode, ResetSer;
    assert !Has(t, p + [k]) by {
      if Has(t, p + [k]) {
        assert (p + [k])[..|p|] == p;
        TreeIsPrefixClosed(t, p + [k], |p|);
      }
    }
    UpdatedPath(t, p + [k], kid, p);
    UpdatedPath(ApplyUpdate(t, p + [k], kid), p, ser, p);
    UpdatedPath(t, p, ser, p);
    UpdatedPath(ApplyUpdate(t, p, ser), p + [k], kid, p);
  }

  /** If no sent status can get in that way, every new node starts without one, in every order. */
  lemma NewNodesHaveNoStatus(t0: Tree, t: Tree, u: Updates, q: Path)
    requires Applied(t0, t, u, u.Keys) && q in u && !Has(t0, q)
    requires NoStatus(u[q]) || !AwaitsKid(t0, u, q)
    ensures Has(t, q) && ItemAt(t, q).ser.Some? && NoStatus(ItemAt(t, q).ser.value)
  {
    hide Has, FindNode;
    assert AppliedAt(t0, t, u, u.Keys, q) && Covered(u.Keys, q);
    ResetTwice(u[q]);
  }

  /** What another cluster may send without putting its own status into new or retyped nodes. */
  ghost predicate Deliverable(t: Tree, u: Updates, next: VT, q: Path) {
    q in u ==>
      && SortedNode(u[q])
      && (forall o, x :: x in TasksOf(o, u[q]) ==> Less(x.vt, next))
      && (NoStatus(u[q]) || (if Has(t, q)
            then ItemAt(t, q).ser.Some? && ItemAt(t, q).ser.value.attrs.ComponentAttributes?
            else !AwaitsKid(t, u, q)))
  }

  lemma ResetTwice(ser: SerializedNode)
    ensures NoStatus(ResetSer(ser))
  {
    if ser.attrs.ComponentAttributes? {
      assert Reset(Reset(ser.attrs.sideEffects)) == Reset(ser.attrs.sideEffects);
      assert Reset(Reset(ser.attrs.pures)) == Reset(ser.attrs.pures);
    }
  }

  // ---------------------------------------------------------- snapshots

  /** The nodes updated after `min`. */
  function Snapshot(t: Tree, min: VT): (r: Updates)
    ensures forall p :: p in r <==> Has(t, p) && NewerNode(ItemAt(t, p), min)
    ensures forall p :: p in r ==> ItemAt(t, p).ser == Some(r[p])
  {
    var nodes := Flat(t);
    map p | p in nodes && NewerNode(nodes[p], min) :: nodes[p].ser.value
  }

  predicate NewerNode(item: Item, min: VT) {
    item.ser.Some? && Compare(item.ser.value.last, min) > 0
  }

  /** What the walk has put into the result when it is done with the children outside `todo`. */
  ghost predicate Collected(
    t: Tree, at: Path, min: VT, before: Updates, after: Updates, todo: set<Name>)
  {
    forall q :: CollectedAt(t, at, min, before, after, todo, q)
  }

  ghost predicate CollectedAt(
    t: Tree, at: Path, min: VT, before: Updates, after: Updates, todo: set<Name>, q: Path)
  {
    if at <= q && Has(t, q[|at|..]) && (|q| == |at| || q[|at|] !in todo) && NewerNode(ItemAt(t, q[|at|..]), min)
    then q in after && ItemAt(t, q[|at|..]).ser == Some(after[q])
    else (q in after <==> q in before) && (q in before ==> after[q] == before[q])
  }

  /** The recursive walk, its children in any order; every node it meets must have been filled in. */
  method SnapshotInternal(t: Tree, at: Path, min: VT, nodes: Updates) returns (nodes': Updates)
    requires forall p :: Has(t, p) ==> ItemAt(t, p).ser.Some?
    ensures Collected(t, at, min, nodes, nodes', {})
    decreases t
  {
    hide Collected;
    nodes' := nodes;
    assert Has(t, []);
    if Compare(t.item.ser.value.last, min) > 0 {
      nodes' := nodes'[at := t.item.ser.value];
    }
    var todo := t.kids.Keys;
    CollectedStart(t, at, min, nodes, nodes');
    while todo != {}
      invariant todo <= t.kids.Keys && Collected(t, at, min, nodes, nodes', todo)
      decreases todo
    {
      var k :| k in todo;
      KidIsWhole(t, k);
      var more := SnapshotInternal(t.kids[k], at + [k], min, nodes');
      CollectedStep(t, at, min, nodes, nodes', more, todo, k);
      nodes', todo := more, todo - {k};
    }
  }

  lemma KidIsWhole(t: Tree, k: Name)
    requires k in t.kids && forall p :: Has(t, p) ==> ItemAt(t, p).ser.Some?
    ensures forall p :: Has(t.kids[k], p) ==> ItemAt(t.kids[k], p).ser.Some?
  {
    forall p | Has(t.kids[k], p) ensures ItemAt(t.kids[k], p).ser.Some? {
      assert ([k] + p)[1..] == p;
      assert Has(t, [k] + p);
    }
  }

  lemma CollectedStart(t: Tree, at: Path, min: VT, nodes: Updates, nodes': Updates)
    requires nodes' == if NewerNode(t.item, min) then nodes[at := t.item.ser.value] else nodes
    ensures Collected(t, at, min, nodes, nodes', t.kids.Keys)
  {
    forall q ensures CollectedAt(t, at, min, nodes, nodes', t.kids.Keys, q) {
      if at <= q && |q| == |at| {
        assert q == at && q[|at|..] == [];
      }
    }
  }

  lemma CollectedStep(
    t: Tree, at: Path, min: VT, nodes: Updates, nodes': Updates, more: Updates, todo: set<Name>, k: Name)
    requires k in todo && k in t.kids && Collected(t, at, min, nodes, nodes', todo)
    requires Collected(t.kids[k], at + [k], min, nodes', more, {})
    ensures Collected(t, at, min, nodes, more, todo - {k})
  {
    forall q ensures CollectedAt(t, at, min, nodes, more, todo - {k}, q) {
      CollectedStepAt(t, at, min, nodes, nodes', more, todo, k, q);
    }
  }

  lemma CollectedStepAt(
    t: Tree, at: Path, min: VT, nodes: Updates, nodes': Updates, more: Updates, todo: set<Name>, k: Name, q: Path)
    requires k in todo && k in t.kids && Collected(t, at, min, nodes, nodes', todo)
    requires Collected(t.kids[k], at + [k], min, nodes', more, {})
    ensures CollectedAt(t, at, min, nodes, more, todo - {k}, q)
  {
    hide NewerNode;
    assert CollectedAt(t, at, min, nodes, nodes', todo, q);
    assert CollectedAt(t.kids[k], at + [k], min, nodes', more, {}, q);
    if at <= q && |q| > |at| {
      var r := q[|at|..];
      assert r[0] == q[|at|] && r[1..] == q[|at| + 1..];
      assert at + [k] <= q <==> q[|at|] == k;
    }
  }

  /** From the root, and nothing collected yet, the walk yields exactly the nodes updated after `min`. */
  lemma WalkIsSnapshot(t: Tree, min: VT, nodes: Updates)
    requires Collected(t, [], min, map[], nodes, {})
    ensures nodes == Snapshot(t, min)
  {
    hide Has, FindNode, NewerNode;
    forall q ensures (q in nodes <==> q in Snapshot(t, min)) && (q in nodes ==> nodes[q] == Snapshot(t, min)[q]) {
      assert CollectedAt(t, [], min, map[], nodes, {}, q);
      assert q[0..] == q;
    }
  }

  /** The path came under the key it has in the tree. */
  predicate SameKind(t: Tree, items: set<Path>, p: Path) {
    KeyAt(t, p).item <==> p in items
  }

  /** Snapshots are compared key by key. */
  function SnapshotDeletes(t: Tree, incoming: Updates, items: set<Path>): set<Path> {
    set p | p in Snapshot(t, ZERO) && !(p in incoming && SameKind(t, items, p))
  }

  function SnapshotUpdates(t: Tree, incoming: Updates, items: set<Path>): Updates {
    var current := Snapshot(t, ZERO);
    map p | p in incoming
      && !(p in current && SameKind(t, items, p) && Compare(current[p].last, incoming[p].last) == 0) :: incoming[p]
  }
}
