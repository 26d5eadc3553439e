/** Closing a transaction and refreshing tasks, on the tree and the changes gathered with it. */
module Engine {
  import opened Wrappers
  import opened Versions
  import opened Tasks
  import opened TaskLists
  import opened Trees
  import opened StructureSync
  import opened Pointers
  import opened Transactions
  import opened Replication
  import PathEncoder

  datatype Mutation = Mutation(updated: map<NodeKey, SerializedNode>, deleted: set<NodeKey>)

  /** The tree and the changes gathered so far in the open transaction. */
  datatype State = State(
    root: Tree,
    updated: map<NodeKey, Entry>,
    deleted: set<NodeKey>,
    system: map<NodeKey, Entry>)

  predicate Leaves(t: Tree, p: Path) {
    Has(t, p) && !Stays(Where(t, p))
  }

  /** Entries of nodes that a synchronisation drops keep the serialized node they shared. */
  function Detach(entries: map<NodeKey, Entry>, t: Tree): map<NodeKey, Entry> {
    map k | k in entries ::
      if entries[k].Live? && Leaves(t, k.path) && ItemAt(t, k.path).ser.Some?
      then Stale(ItemAt(t, k.path).ser.value)
      else entries[k]
  }

  /** The same for nodes at some paths, which replication deletes or gives another serialized form. */
  function LetGo(entries: map<NodeKey, Entry>, t: Tree, gone: set<Path>): map<NodeKey, Entry> {
    map k | k in entries ::
      if entries[k].Live? && k.path in gone && Has(t, k.path) && ItemAt(t, k.path).ser.Some?
      then Stale(ItemAt(t, k.path).ser.value)
      else entries[k]
  }

  /** The nodes a deletion detaches; the root itself stays. */
  function Detached(t: Tree, d: set<Path>): (r: set<Path>)
    ensures forall q :: q in r <==> Has(t, q) && Hit(d, q)
  {
    set q | q in Paths(t) && q != [] && exists p :: p in d && p <= q
  }

  /** The serialized nodes a change set stands for when it is handed over. */
  function Materialize(entries: map<NodeKey, Entry>, nodes: map<Path, Item>): map<NodeKey, SerializedNode> {
    map k | k in entries && (entries[k].Stale? || (k.path in nodes && nodes[k.path].ser.Some?)) ::
      match entries[k]
      case Live => nodes[k.path].ser.value
      case Stale(ser) => ser
  }

  /** How one transaction was closed: the choices left open by map order, and what was handed out. */
  datatype Run = Run(
    resolved: Tree, offsets: map<Path, int>, first: Option<Path>, timer: bool, out: seq<Physical>)

  ghost function SerializedNodes(run: Run, next: VT): map<Path, Item> {
    var nodes := Flat(run.resolved);
    map p | p in nodes :: Serialized(nodes[p], next)
  }

  ghost function ClosedNodes(run: Run, c: Closing): map<Path, Item> {
    var nodes := SerializedNodes(run, c.next);
    map p | p in nodes && p in run.offsets :: ClosedItem(nodes[p], c, run.offsets[p])
  }

  ghost function FinalNodes(run: Run, c: Closing): map<Path, Item> {
    var nodes := ClosedNodes(run, c);
    if run.timer && run.first.Some? && run.first.value in nodes && PuresOf(nodes[run.first.value]) != []
    then nodes[run.first.value := MarkFirstPure(nodes[run.first.value])]
    else nodes
  }

  ghost function ReturnedMutation(s: State, c: Closing, run: Run): Mutation {
    var nodes := Flat(run.resolved);
    var dirty := KeysIn(nodes, Dirty(nodes));
    var updated := AllLive(Detach(s.updated, s.root), dirty);
    var system := Detach(s.system, s.root);
    var system' := if run.timer && run.first.Some? then system[KeyIn(nodes, run.first.value) := Live] else system;
    Mutation(Materialize(updated + system', FinalNodes(run, c)), s.deleted + Deleted(s.root) - dirty)
  }

  /** The steps up to serialization went through. */
  ghost predicate Prepared(s: State, next: VT, resolved: Tree) {
    var t1 := SyncSubComponents(s.root, next);
    && (forall k :: k in Deleted(s.root) ==> PathEncoder.Encodable(k.path))
    && Settled(t1) && Aligned(t1) && Resolved(t1, resolved, {})
  }

  ghost predicate Handled(c: Closing, run: Run) {
    var nodes, closed := SerializedNodes(run, c.next), ClosedNodes(run, c);
    && run.offsets.Keys == nodes.Keys && Spaced(nodes, c, run.offsets)
    && (forall p :: p in nodes ==> !TasksBroken(nodes[p], c))
    && TimerFits(closed, run)
    && (forall p :: p in nodes ==> OfNode(run.out, p) == Emissions(nodes[p], p, c, run.offsets[p]))
    && (forall p :: p !in nodes ==> OfNode(run.out, p) == [])
  }

  /** The one physical pure task: for the earliest pure task of the tree, if that has none yet. */
  ghost predicate TimerFits(closed: map<Path, Item>, run: Run) {
    && First(closed, closed.Keys, run.first)
    && (run.first.Some? ==> run.first.value in closed && PuresOf(closed[run.first.value]) != [])
    && (run.timer <==> run.first.Some? && PuresOf(closed[run.first.value])[0].status == NotCreated)
    && Timers(run.out) ==
         (if run.timer then [PureTimer(AsTime(PuresOf(closed[run.first.value])[0].scheduled))] else [])
  }

  /** A successful run of the steps of a close. */
  ghost predicate GoodRun(s: State, c: Closing, run: Run) {
    && Prepared(s, c.next, run.resolved)
    && (forall p :: p in Flat(run.resolved) ==> Ready(Flat(run.resolved)[p], p, c.next))
    && Handled(c, run)
  }

  /** A pointer field whose object has no node. */
  ghost predicate Dangling(t: Tree, p: Path, k: Name) {
    Has(t, p) && DeferredId(ItemAt(t, p), k).Some? && Holders(t, DeferredId(ItemAt(t, p), k).value) == {}
  }

  /** What stops a close before serialization: a name, a dirty node left over, or a pointer. */
  ghost predicate Unprepared(s: State, next: VT) {
    var t1 := SyncSubComponents(s.root, next);
    || (exists k :: k in Deleted(s.root) && !PathEncoder.Encodable(k.path))
    || !Settled(t1)
    || (exists p, k :: Dangling(t1, p, k))
  }

  /** What stops it afterwards: a node that cannot be serialized, or a task that cannot be judged. */
  ghost predicate Unfinished(c: Closing, resolved: Tree) {
    var nodes := Flat(resolved);
    exists p :: p in nodes && (!Ready(nodes[p], p, c.next) || TasksBroken(Serialized(nodes[p], c.next), c))
  }

  method Prepare(s: State, next: VT) returns (r: Result<Tree>)
    requires Coherent(s.root)
    ensures r.Success? ==> Prepared(s, next, r.value)
    ensures r.Failure? <==> Unprepared(s, next)
  {
    hide PathEncoder.Encodable, Coherent, Aligned, SyncSubComponents, Deleted, DeferredId, Holders, Has, FindNode,
         Resolved;
    if exists k :: k in Deleted(s.root) && !PathEncoder.Encodable(k.path) {
      return Failure("path cannot be encoded");
    }
    var t1 := SyncSubComponents(s.root, next);
    if exists p :: p in Paths(t1) && ItemAt(t1, p).state == NeedSyncStructure {
      return Failure("invalid valueState for serializing");
    }
    SyncAligns(s.root, next);
    r := ResolveDeferredPointers(t1);
    if r.Failure? {
      var p, k :|
        Has(t1, p) && DeferredId(ItemAt(t1, p), k).Some? && Holders(t1, DeferredId(ItemAt(t1, p), k).value) == {};
      assert Dangling(t1, p, k);
    }
  }

  /** The validators of a close read the tree as it was just serialized. */
  function Judging(next: VT, validate: TreeValidator, news: map<nat, seq<NewTask>>, resolved: Tree): (c: Closing)
    ensures c.next == next && c.news == news
  {
    var nodes := Flat(resolved);
    var t := Regrow(resolved, map p | p in nodes :: Serialized(nodes[p], next), []);
    Closing(next, (v, spec) => validate(t, v, spec), news)
  }

  method Close(s: State, next: VT, validate: TreeValidator, news: map<nat, seq<NewTask>>)
    returns (r: Result<Mutation>, root: Tree, ghost run: Run, out: seq<Physical>)
    requires Coherent(s.root)
    ensures r.Success? ==>
      var c := Judging(next, validate, news, run.resolved);
      && GoodRun(s, c, run) && out == run.out
      && Flat(root) == FinalNodes(run, c)
      && r.value == ReturnedMutation(s, c, run)
    ensures r.Failure? ==>
      || Unprepared(s, next)
      || (Prepared(s, next, run.resolved) && Unfinished(Judging(next, validate, news, run.resolved), run.resolved))
  {
    hide *;
    root, out := s.root, [];
    run := Run(root, map[], None, false, []);
    var prepared := Prepare(s, next);
    if prepared.Failure? {
      return Failure(prepared.error), root, run, out;
    }
    root := prepared.value;
    run := run.(resolved := root);
    var c := Judging(next, validate, news, root);
    var nodes, updated, deleted :=
      SerializeNodes(Flat(root), next, Detach(s.updated, s.root), s.deleted + Deleted(s.root));
    if nodes.Failure? {
      NotReady(root, c);
      return Failure(nodes.error), root, run, out;
    }
    var now, log, first, timer;
    ghost var offsets, closed;
    now, log, first, timer, offsets, closed := UpdateComponentTasks(nodes.value, c);
    if now.Failure? {
      NotJudged(root, c, nodes.value);
      return Failure(now.error), root, run, out;
    }
    out := log;
    run := Run(root, offsets, first, timer, log);
    FirstIn(closed, closed.Keys, first);
    RunNodes(run, c, nodes.value, closed, now.value);
    RunTimer(closed, run);
    RunIsGood(s, c, run, closed);
    var system := Detach(s.system, s.root);
    if timer {
      system := system[KeyIn(nodes.value, first.value) := Live];
    }
    SerializedKeys(root, c.next, nodes.value);
    RunReturns(s, c, run, updated, deleted, system, now.value);
    FlatRegrow(root, now.value);
    root := Regrow(root, now.value, []);
    r := Success(Mutation(Materialize(updated + system, now.value), deleted));
  }

  lemma NotReady(resolved: Tree, c: Closing)
    requires exists p :: p in Flat(resolved) && !Ready(Flat(resolved)[p], p, c.next)
    ensures Unfinished(c, resolved)
  {
    hide Ready, TasksBroken, Serialized, Flat;
  }

  lemma NotJudged(resolved: Tree, c: Closing, nodes: map<Path, Item>)
    requires nodes == map p | p in Flat(resolved) :: Serialized(Flat(resolved)[p], c.next)
    requires exists p :: p in nodes && TasksBroken(nodes[p], c)
    ensures Unfinished(c, resolved)
  {
    hide Ready, TasksBroken, Serialized, Flat;
    var p :| p in nodes && TasksBroken(nodes[p], c);
    assert p in Flat(resolved);
  }

  lemma RunTimer(closed: map<Path, Item>, run: Run)
    requires First(closed, closed.Keys, run.first)
    requires run.first.Some? ==> run.first.value in closed && PuresOf(closed[run.first.value]) != []
    requires run.timer <==> run.first.Some? && PuresOf(closed[run.first.value])[0].status == NotCreated
    requires Timers(run.out) ==
      (if run.timer then [PureTimer(AsTime(PuresOf(closed[run.first.value])[0].scheduled))] else [])
    ensures TimerFits(closed, run)
  {
    hide First, PuresOf, Timers;
  }

  lemma RunIsGood(s: State, c: Closing, run: Run, closed: map<Path, Item>)
    requires Prepared(s, c.next, run.resolved)
    requires forall p :: p in Flat(run.resolved) ==> Ready(Flat(run.resolved)[p], p, c.next)
    requires var nodes := SerializedNodes(run, c.next);
      && closed == ClosedNodes(run, c) && run.offsets.Keys == nodes.Keys && Spaced(nodes, c, run.offsets)
      && (forall p :: p in nodes ==> !TasksBroken(nodes[p], c))
      && TimerFits(closed, run)
      && (forall p :: p in nodes ==> OfNode(run.out, p) == Emissions(nodes[p], p, c, run.offsets[p]))
      && (forall p :: p !in nodes ==> OfNode(run.out, p) == [])
    ensures GoodRun(s, c, run)
  {
    hide Prepared, Ready, Flat, SerializedNodes, ClosedNodes, TasksBroken, TimerFits, OfNode, Emissions, Spaced;
  }

  lemma RunReturns(
    s: State, c: Closing, run: Run, updated: map<NodeKey, Entry>, deleted: set<NodeKey>, system: map<NodeKey, Entry>,
    final: map<Path, Item>)
    requires var nodes := Flat(run.resolved);
      && updated == AllLive(Detach(s.updated, s.root), KeysIn(nodes, Dirty(nodes)))
      && deleted == s.deleted + Deleted(s.root) - KeysIn(nodes, Dirty(nodes))
      && (run.timer ==> run.first.Some?)
      && system == (if run.timer then Detach(s.system, s.root)[KeyIn(nodes, run.first.value) := Live]
                    else Detach(s.system, s.root))
    requires final == FinalNodes(run, c)
    ensures ReturnedMutation(s, c, run) == Mutation(Materialize(updated + system, final), deleted)
  {
    hide AllLive, Detach, Dirty, Flat, Deleted, FinalNodes, Materialize, KeysIn, KeyIn;
  }

  lemma SerializedKeys(t: Tree, next: VT, nodes: map<Path, Item>)
    requires nodes == map p | p in Flat(t) :: Serialized(Flat(t)[p], next)
    ensures forall p :: KeyIn(nodes, p) == KeyIn(Flat(t), p)
  {
    hide Flat, Serialized, KeyIn;
    forall p ensures KeyIn(nodes, p) == KeyIn(Flat(t), p) {
      SerializedKey(Flat(t), nodes, next, p);
    }
  }

  lemma RunNodes(run: Run, c: Closing, nodes: map<Path, Item>, closed: map<Path, Item>, final: map<Path, Item>)
    requires nodes == map p | p in Flat(run.resolved) :: Serialized(Flat(run.resolved)[p], c.next)
    requires nodes.Keys == run.offsets.Keys
    requires closed == map p | p in nodes :: ClosedItem(nodes[p], c, run.offsets[p])
    requires run.timer ==> run.first.Some? && run.first.value in closed && PuresOf(closed[run.first.value]) != []
    requires final == if run.timer then closed[run.first.value := MarkFirstPure(closed[run.first.value])] else closed
    ensures nodes == SerializedNodes(run, c.next) && closed == ClosedNodes(run, c) && final == FinalNodes(run, c)
  {
    hide ClosedItem, Serialized, MarkFirstPure, Flat;
  }

  /** The obstacles Close reports are real: no run goes past them. */
  lemma ObstaclesStopTheClose(s: State, c: Closing, run: Run)
    requires Unprepared(s, c.next) || Unfinished(c, run.resolved)
    ensures !GoodRun(s, c, run)
  {
    hide Ready, TasksBroken, Serialized, Flat, SyncSubComponents, Deleted, PathEncoder.Encodable;
    if !Unprepared(s, c.next) {
      var p :| p in Flat(run.resolved)
        && (!Ready(Flat(run.resolved)[p], p, c.next) || TasksBroken(Serialized(Flat(run.resolved)[p], c.next), c));
      assert p in SerializedNodes(run, c.next);
    } else if GoodRun(s, c, run) {
      var t1 := SyncSubComponents(s.root, c.next);
      var p, k :| Dangling(t1, p, k);
      ResolvedHasHolders(t1, run.resolved, p, k);
    }
  }

  // ------------------------------------------ a pointer held in a map

  lemma {:induction false} AlignedBelow(t: Tree, p: Path)
    requires Aligned(t) && Has(t, p)
    ensures Aligned(FindNode(t, p).value)
  {
    if p == [] {
    } else {
      AlignedBelow(t.kids[p[0]], p[1..]);
    }
  }

  /** A pointer to an object, put under `key` into the map in field `k`. */
  predicate MapPointer(item: Item, k: Name, key: Name) {
    && Structural(item)
    && var fields := item.value.value.fields;
       && k in fields && fields[k].SubMap? && key in fields[k].items
       && fields[k].items[key].Fresh? && fields[k].items[key].v.Deferred?
  }

  /** A pointer node without a path to serialize. */
  predicate Unresolved(item: Item) {
    PointerNode(item) && item.state == NeedSerialize && item.value.Some? && item.value.value.Deferred?
  }

  lemma MapPointerKid(t: Tree, next: VT, k: Name, key: Name)
    requires MapPointer(t.item, k, key) && Aligned(SyncSubComponents(t, next))
    ensures var s := SyncSubComponents(t, next);
      && k in s.kids && s.kids[k].item.value.None?
      && key in s.kids[k].kids && Unresolved(s.kids[k].kids[key].item)
  {
    var s, f := SyncSubComponents(t, next), t.item.value.value.fields[k];
    assert s.kids[k] == SyncField(f, k, t, next);
    assert s.kids[k].kids[key] == Build(f.items[key].v, next) by {
      if k in t.kids {
        assert s.kids[k].kids == SyncItems(f.items, t.kids[k], next);
        assert s.kids[k].kids[key] == SyncSubField(f.items[key], key, t.kids[k], next);
      }
    }
    assert s.item.value.value.fields[k] == LinkField(f);
    assert Matches(s.item.value.value.fields, s);
  }

  lemma MapPointerNode(t: Tree, next: VT, owner: Path, k: Name, key: Name)
    requires Has(t, owner) && Where(t, owner) == Visited && MapPointer(ItemAt(t, owner), k, key)
    requires Aligned(SyncSubComponents(t, next))
    ensures var t1, q := SyncSubComponents(t, next), owner + [k, key];
      && Has(t1, owner + [k]) && ItemAt(t1, owner + [k]).value.None?
      && Has(t1, q) && Unresolved(ItemAt(t1, q))
  {
    hide Aligned, SyncSubComponents, MapPointer, Unresolved, Where;
    var t1, node := SyncSubComponents(t, next), FindNode(t, owner).value;
    VisitedSubtree(t, next, owner);
    AlignedBelow(t1, owner);
    MapPointerKid(node, next, k, key);
    FindSplit(t1, owner, [k]);
    FindSplit(t1, owner, [k, key]);
    TwoDown(SyncSubComponents(node, next), [k, key]);
    OneDown(SyncSubComponents(node, next), [k]);
    assert [k, key][2..] == [];
  }

  /** Resolution passes it by. */
  lemma MapPointerStays(t0: Tree, t: Tree, q: Path)
    requires Resolved(t0, t, {}) && |q| > 0 && Has(t0, q) && Unresolved(ItemAt(t0, q))
    requires Has(t0, q[..|q| - 1]) && ItemAt(t0, q[..|q| - 1]).value.None?
    ensures Has(t, q) && Unresolved(ItemAt(t, q))
  {
    hide Has, FindNode;
    assert Has(t, q) && ResolvedItem(t0, q, ItemAt(t, q), {});
  }

  lemma UnresolvedIsNotReady(t: Tree, q: Path, next: VT)
    requires Has(t, q) && Unresolved(ItemAt(t, q))
    ensures q in Flat(t) && !Ready(Flat(t)[q], q, next)
  {
    hide Has, FindNode;
    assert SerializeItem(ItemAt(t, q), next).Failure?;
  }

  /** Pointers held by the items of a map are never resolved, so they keep every transaction from closing. */
  lemma PointerInMapStopsTheClose(s: State, c: Closing, run: Run, owner: Path, k: Name, key: Name)
    requires Has(s.root, owner) && Where(s.root, owner) == Visited && MapPointer(ItemAt(s.root, owner), k, key)
    ensures !GoodRun(s, c, run)
  {
    hide Handled, Has, FindNode, Where, SyncSubComponents, Aligned, Resolved, Settled, Deleted, MapPointer, Ready, Flat;
    if GoodRun(s, c, run) {
      var t1, q := SyncSubComponents(s.root, c.next), owner + [k, key];
      MapPointerNode(s.root, c.next, owner, k, key);
      assert q[..|q| - 1] == owner + [k];
      MapPointerStays(t1, run.resolved, q);
      UnresolvedIsNotReady(run.resolved, q, c.next);
    }
  }

  // ------------------------------------------------------ refreshing tasks

  predicate HasCreated(tasks: seq<Task>) {
    exists i :: 0 <= i < |tasks| && tasks[i].status == Created
  }

  /** Every status reset, in both lists. */
  function ResetItem(item: Item): Item {
    if !IsComponent(item) then item
    else
      var attrs := item.ser.value.attrs;
      WithAttributes(item, attrs.(sideEffects := Reset(attrs.sideEffects), pures := Reset(attrs.pures)))
  }

  predicate Resets(item: Item) {
    && IsComponent(item)
    && (HasCreated(item.ser.value.attrs.pures) || HasCreated(item.ser.value.attrs.sideEffects))
  }

  function ResetPaths(nodes: map<Path, Item>): set<Path> {
    set p | p in nodes && Resets(nodes[p])
  }

  /** Resetting a node does not turn it into a collection or out of one. */
  lemma ResetKind(item: Item)
    ensures CollectionNode(ResetItem(item)) <==> CollectionNode(item)
  {
  }

  method ResetTaskStatus(tasks: seq<Task>) returns (out: seq<Task>, reset: bool)
    ensures out == Reset(tasks) && (reset <==> HasCreated(tasks))
  {
    out, reset := tasks, false;
    for i := 0 to |tasks|
      invariant |out| == |tasks|
      invariant forall j :: 0 <= j < i ==> out[j] == tasks[j].(status := NotCreated)
      invariant forall j :: i <= j < |tasks| ==> out[j] == tasks[j]
      invariant reset <==> exists j :: 0 <= j < i && tasks[j].status == Created
    {
      if !reset && out[i].status == Created {
        reset := true;
      }
      out := out[i := out[i].(status := NotCreated)];
    }
  }

  method Refresh(nodes: map<Path, Item>, system: map<NodeKey, Entry>)
    returns (now: map<Path, Item>, system': map<NodeKey, Entry>)
    ensures now == map p | p in nodes :: ResetItem(nodes[p])
    ensures system' == AllLive(system, KeysIn(nodes, ResetPaths(nodes)))
  {
    hide ResetItem, Resets, KeyIn, KeysIn, AllLive;
    var todo := nodes.Keys;
    now, system' := nodes, system;
    NotesStart(nodes, system);
    while todo != {}
      invariant todo <= nodes.Keys == now.Keys
      invariant forall p :: p in nodes ==> now[p] == if p in todo then nodes[p] else ResetItem(nodes[p])
      invariant system' == AllLive(system, KeysIn(nodes, ResetPaths(nodes) - todo))
      decreases todo
    {
      var p :| p in todo;
      var item, reset := RefreshNode(now[p]);
      RefreshKey(nodes, now, p);
      NotesStep(nodes, system, todo, p);
      var key := KeyIn(now, p);
      now := now[p := item];
      if reset {
        system' := system'[key := Live];
      }
      todo := todo - {p};
    }
    assert ResetPaths(nodes) - todo == ResetPaths(nodes);
  }

  lemma NotesStart(nodes: map<Path, Item>, system: map<NodeKey, Entry>)
    ensures AllLive(system, KeysIn(nodes, ResetPaths(nodes) - nodes.Keys)) == system
  {
    assert ResetPaths(nodes) - nodes.Keys == {};
    assert KeysIn(nodes, {}) == {};
  }

  lemma NotesStep(nodes: map<Path, Item>, system: map<NodeKey, Entry>, todo: set<Path>, p: Path)
    requires p in todo && p in nodes
    ensures AllLive(system, KeysIn(nodes, ResetPaths(nodes) - (todo - {p}))) ==
      if Resets(nodes[p]) then AllLive(system, KeysIn(nodes, ResetPaths(nodes) - todo))[KeyIn(nodes, p) := Live]
      else AllLive(system, KeysIn(nodes, ResetPaths(nodes) - todo))
  {
    hide KeysIn, KeyIn, Resets;
    var before, after := ResetPaths(nodes) - todo, ResetPaths(nodes) - (todo - {p});
    if Resets(nodes[p]) {
      assert after == before + {p};
      KeysInAdd(nodes, before, p);
    } else {
      assert after == before;
    }
  }

  lemma RefreshKey(nodes: map<Path, Item>, now: map<Path, Item>, p: Path)
    requires nodes.Keys == now.Keys && forall q :: q in nodes ==> now[q] == nodes[q] || now[q] == ResetItem(nodes[q])
    ensures KeyIn(now, p) == KeyIn(nodes, p)
  {
    hide ResetItem;
    if |p| > 1 && p[..|p| - 1] in nodes {
      ResetKind(nodes[p[..|p| - 1]]);
    }
  }

  method RefreshNode(item: Item) returns (item': Item, reset: bool)
    ensures item' == ResetItem(item) && (reset <==> Resets(item))
  {
    item', reset := item, false;
    if IsComponent(item) {
      var attrs := item.ser.value.attrs;
      var pures, a := ResetTaskStatus(attrs.pures);
      var sideEffects, b := ResetTaskStatus(attrs.sideEffects);
      item' := WithAttributes(item, attrs.(sideEffects := sideEffects, pures := pures));
      reset := a || b;
    }
  }
}
