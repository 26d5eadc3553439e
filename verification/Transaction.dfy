/**
  Closing a transaction: dirty nodes are serialized, their tasks pruned and extended, physical
  tasks handed to the backend, and the change set returned for persistence.
 */
module Transactions {
  import opened Wrappers
  import opened Versions
  import opened Tasks
  import opened TaskLists
  import opened Trees
  import opened StructureSync
  import opened Pointers
  import PathEncoder

  const VISIBILITY_COMPONENT := "core.vis"

  /**
    An entry of a change set. Live shares the serialized node with the tree, so later changes to
    the node show in it; Stale is a serialized node the tree has let go of since.
   */
  datatype Entry = Live | Stale(ser: SerializedNode)

  // ------------------------------------------------------- serialization

  function SerializeItem(item: Item, next: VT): Result<Item> {
    match item.ser
    case None => Failure("unknown node type")
    case Some(ser) =>
      match (ser.attrs, item.value)
      case (ComponentAttributes(_, _, _), Some(Component(_, typ, data, _))) =>
        Success(Item(Some(ser.(data := data, attrs := ser.attrs.(typ := typ), last := next)), item.value, Synced))
      case (DataAttributes, Some(Data(_, data))) =>
        Success(Item(Some(ser.(data := data, last := next)), item.value, Synced))
      case (CollectionAttributes, _) =>
        Success(Item(Some(ser.(last := next)), item.value, Synced))
      case (PointerAttributes(_), Some(Pointer(path))) =>
        Success(Item(Some(ser.(attrs := PointerAttributes(path), last := next)), item.value, Synced))
      case _ => Failure("value does not fit the node")
  }

  /** The node at `p` does not stop the transaction from being serialized. */
  predicate Ready(item: Item, p: Path, next: VT) {
    && item.state != NeedSyncStructure
    && (item.state == NeedSerialize ==>
          && SerializeItem(item, next).Success?
          && (IsVisibility(SerializeItem(item, next).value) ==> |p| == 1)
          && PathEncoder.Encodable(p))
  }

  predicate IsVisibility(item: Item) {
    item.ser.Some? && item.ser.value.attrs.ComponentAttributes? && item.ser.value.attrs.typ == VISIBILITY_COMPONENT
  }

  function Serialized(item: Item, next: VT): Item {
    if item.state == NeedSerialize && SerializeItem(item, next).Success?
    then SerializeItem(item, next).value
    else item
  }

  function Dirty(nodes: map<Path, Item>): set<Path> {
    set p | p in nodes && nodes[p].state == NeedSerialize
  }

  /** The keys of some of the nodes. */
  function KeysIn(nodes: map<Path, Item>, s: set<Path>): (r: set<NodeKey>)
    ensures forall k :: k in r <==> k.path in s && KeyIn(nodes, k.path) == k
  {
    set p | p in s :: KeyIn(nodes, p)
  }

  function AllLive(entries: map<NodeKey, Entry>, s: set<NodeKey>): map<NodeKey, Entry> {
    map k | k in entries.Keys + s :: if k in s then Live else entries[k]
  }

  method SerializeNodes(nodes: map<Path, Item>, next: VT, updated: map<NodeKey, Entry>, deleted: set<NodeKey>)
    returns (r: Result<map<Path, Item>>, updated': map<NodeKey, Entry>, deleted': set<NodeKey>)
    ensures r.Success? <==> forall p :: p in nodes ==> Ready(nodes[p], p, next)
    ensures r.Success? ==>
      && r.value == (map p | p in nodes :: Serialized(nodes[p], next))
      && updated' == AllLive(updated, KeysIn(nodes, Dirty(nodes)))
      && deleted' == deleted - KeysIn(nodes, Dirty(nodes))
  {
    hide Ready, Serialized, SerializeItem, AllLive, Dirty, KeysIn, KeyIn;
    ChangeSetStart(nodes, updated, deleted);
    var now, todo := nodes, nodes.Keys;
    updated', deleted' := updated, deleted;
    while todo != {}
      invariant todo <= nodes.Keys == now.Keys
      invariant forall p :: p in nodes ==> now[p] == if p in todo then nodes[p] else Serialized(nodes[p], next)
      invariant forall p :: p in nodes && p !in todo ==> Ready(nodes[p], p, next)
      invariant updated' == AllLive(updated, KeysIn(nodes, Dirty(nodes) - todo))
      invariant deleted' == deleted - KeysIn(nodes, Dirty(nodes) - todo)
      decreases todo
    {
      var p :| p in todo;
      if !Ready(now[p], p, next) {
        return Failure("cannot serialize node"), updated', deleted';
      }
      SerializedCases(now[p], p, next);
      SerializedKey(nodes, now, next, p);
      ChangeSetStep(nodes, updated, deleted, todo, p);
      if now[p].state == NeedSerialize {
        var key := KeyIn(now, p);
        now := now[p := SerializeItem(now[p], next).value];
        updated' := updated'[key := Live];
        deleted' := deleted' - {key};
      }
      todo := todo - {p};
    }
    assert Dirty(nodes) - todo == Dirty(nodes);
    r := Success(now);
  }

  /** Serializing a node does not turn it into a collection or out of one. */
  lemma SerializedKind(item: Item, next: VT)
    ensures CollectionNode(Serialized(item, next)) <==> CollectionNode(item)
  {
  }

  lemma SerializedKey(nodes: map<Path, Item>, now: map<Path, Item>, next: VT, p: Path)
    requires nodes.Keys == now.Keys
    requires forall q :: q in nodes ==> now[q] == nodes[q] || now[q] == Serialized(nodes[q], next)
    ensures KeyIn(now, p) == KeyIn(nodes, p)
  {
    hide Serialized;
    if |p| > 1 && p[..|p| - 1] in nodes {
      SerializedKind(nodes[p[..|p| - 1]], next);
    }
  }

  lemma ChangeSetStart(nodes: map<Path, Item>, updated: map<NodeKey, Entry>, deleted: set<NodeKey>)
    ensures AllLive(updated, KeysIn(nodes, Dirty(nodes) - nodes.Keys)) == updated
    ensures deleted - KeysIn(nodes, Dirty(nodes) - nodes.Keys) == deleted
  {
    assert Dirty(nodes) - nodes.Keys == {};
    assert KeysIn(nodes, {}) == {};
  }

  lemma ChangeSetStep(
    nodes: map<Path, Item>, updated: map<NodeKey, Entry>, deleted: set<NodeKey>, todo: set<Path>, p: Path)
    requires p in todo && p in nodes
    ensures var before, after := KeysIn(nodes, Dirty(nodes) - todo), KeysIn(nodes, Dirty(nodes) - (todo - {p}));
      if nodes[p].state == NeedSerialize then
        && AllLive(updated, after) == AllLive(updated, before)[KeyIn(nodes, p) := Live]
        && deleted - after == deleted - before - {KeyIn(nodes, p)}
      else after == before
  {
    hide KeyIn, KeysIn;
    var before, after := Dirty(nodes) - todo, Dirty(nodes) - (todo - {p});
    if nodes[p].state == NeedSerialize {
      assert after == before + {p};
      KeysInAdd(nodes, before, p);
    } else {
      assert after == before;
    }
  }

  lemma KeysInAdd(nodes: map<Path, Item>, s: set<Path>, p: Path)
    ensures KeysIn(nodes, s + {p}) == KeysIn(nodes, s) + {KeyIn(nodes, p)}
  {
    hide KeysIn;
    forall k: NodeKey ensures k in KeysIn(nodes, s + {p}) <==> k in KeysIn(nodes, s) || k == KeyIn(nodes, p) {
    }
  }

  lemma SerializedCases(item: Item, p: Path, next: VT)
    requires Ready(item, p, next)
    ensures Serialized(item, next) == if item.state == NeedSerialize then SerializeItem(item, next).value else item
    ensures item.state == NeedSerialize ==> SerializeItem(item, next).Success?
  {
  }

  // ---------------------------------------------------------------- tasks

  datatype TaskSpec = TaskSpec(typ: string, dest: string, time: Time, bytes: string)

  /** The registered validators while one tree is closed: what each makes of a component's value and a task. */
  type Validator = (Option<Value>, TaskSpec) -> Verdict

  /** The same for any tree, which a validator can read; the value, with its object, says whose task it is. */
  type TreeValidator = (Tree, Option<Value>, TaskSpec) -> Verdict

  datatype Physical =
    | SideEffect(path: Path, initial: VT, last: VT, category: Category, task: Task)
    | PureTimer(time: Time)

  function OnTask(validate: Validator, v: Option<Value>): Task -> Verdict {
    (t: Task) => validate(v, TaskSpec(t.typ, t.dest, AsTime(t.scheduled), t.data.bytes))
  }

  function OnNew(validate: Validator, v: Option<Value>): NewTask -> Verdict {
    (n: NewTask) => validate(v, TaskSpec(n.typ, n.dest, n.scheduled, n.data.bytes))
  }

  /** Tasks are queued under the component object they were added for. */
  function NewsFor(v: Option<Value>, news: map<nat, seq<NewTask>>): seq<NewTask> {
    match v
    case Some(Component(id, _, _, _)) => if id in news then news[id] else []
    case _ => []
  }

  predicate IsComponent(item: Item) {
    item.ser.Some? && item.ser.value.attrs.ComponentAttributes?
  }

  /** The component was updated by this transaction, and not by replication. */
  predicate UpdatedNow(item: Item, next: VT) {
    IsComponent(item) && Compare(item.ser.value.last, next) == 0 && item.state != NeedDeserialize
  }

  /** What closing needs to know about the transaction. */
  datatype Closing = Closing(next: VT, validate: Validator, news: map<nat, seq<NewTask>>)

  function TaskedAttributes(item: Item, c: Closing, offset: int): (r: Attributes)
    requires IsComponent(item)
    ensures r.ComponentAttributes?
  {
    var attrs := item.ser.value.attrs;
    if !UpdatedNow(item, c.next) then attrs
    else
      var old', new' := OnTask(c.validate, item.value), OnNew(c.validate, item.value);
      var news := NewsFor(item.value, c.news);
      attrs.(
        sideEffects := Prune(attrs.sideEffects, old') + Stamped(false, news, new', c.next, offset),
        pures := WithNewPures(Prune(attrs.pures, old'), Stamped(true, news, new', c.next, offset)))
  }

  predicate TasksBroken(item: Item, c: Closing) {
    && UpdatedNow(item, c.next)
    && var attrs, old' := item.ser.value.attrs, OnTask(c.validate, item.value);
       || (exists t :: t in attrs.sideEffects && old'(t) == Broken)
       || (exists t :: t in attrs.pures && old'(t) == Broken)
       || Refused(NewsFor(item.value, c.news), OnNew(c.validate, item.value))
  }

  function WithAttributes(item: Item, attrs: Attributes): Item
    requires item.ser.Some?
  {
    item.(ser := Some(item.ser.value.(attrs := attrs)))
  }

  /** A node after its lists were updated and its side-effect list scanned. */
  function ClosedItem(item: Item, c: Closing, offset: int): Item {
    if !IsComponent(item) then item
    else
      var attrs := TaskedAttributes(item, c, offset);
      WithAttributes(item, attrs.(sideEffects := Marked(attrs.sideEffects)))
  }

  function Physicals(item: Item, p: Path, tasks: seq<Task>): (r: seq<Physical>)
    requires item.ser.Some?
    ensures |r| == |tasks|
  {
    var ser := item.ser.value;
    seq(|tasks|, i requires 0 <= i < |tasks| =>
      SideEffect(p, ser.initial, ser.last, TaskCategory(tasks[i]), tasks[i]))
  }

  function Emissions(item: Item, p: Path, c: Closing, offset: int): seq<Physical> {
    if !IsComponent(item) then []
    else Physicals(item, p, Emitted(TaskedAttributes(item, c, offset).sideEffects))
  }

  function PuresOf(item: Item): seq<Task> {
    if IsComponent(item) then item.ser.value.attrs.pures else []
  }

  method UpdateNodeTasks(item: Item, p: Path, c: Closing, offset: int)
    returns (r: Result<Item>, emitted: seq<Physical>, after: int)
    requires IsComponent(item)
    ensures r.Failure? <==> TasksBroken(item, c)
    ensures r.Success? ==>
      && r.value == ClosedItem(item, c, offset) && emitted == Emissions(item, p, c, offset)
      && after == SpanEnd(item, c, offset)
  {
    hide Prune, Stamped, Marked, Emitted, SortPure, OffsetAfter;
    var attrs := item.ser.value.attrs;
    emitted, after := [], offset;
    if UpdatedNow(item, c.next) {
      var old', new' := OnTask(c.validate, item.value), OnNew(c.validate, item.value);
      if (exists t :: t in attrs.sideEffects && old'(t) == Broken)
         || (exists t :: t in attrs.pures && old'(t) == Broken) {
        return Failure("task validation failed"), [], offset;
      }
      var added;
      added, after := HandleNewTasks(Prune(attrs.sideEffects, old'), Prune(attrs.pures, old'),
                                     NewsFor(item.value, c.news), new', c.next, offset);
      if added.Failure? {
        return Failure("task validation failed"), [], offset;
      }
      attrs := attrs.(sideEffects := added.value.0, pures := added.value.1);
    }
    assert attrs == TaskedAttributes(item, c, offset);
    var marked, tasks := ScanSideEffects(attrs.sideEffects);
    emitted := Physicals(item, p, tasks);
    r := Success(WithAttributes(item, attrs.(sideEffects := marked)));
  }

  // ------------------------------------------- one counter for the tree

  /** Where the counter of new tasks stands after a node it reached at `offset`. */
  function SpanEnd(item: Item, c: Closing, offset: int): int {
    if UpdatedNow(item, c.next) then OffsetAfter(NewsFor(item.value, c.news), OnNew(c.validate, item.value), offset)
    else offset
  }

  /** The new tasks of different nodes have offsets of their own. */
  ghost predicate Spaced(nodes: map<Path, Item>, c: Closing, offsets: map<Path, int>) {
    forall p, q :: p in nodes && q in nodes && p in offsets && q in offsets && p != q ==>
      SpanEnd(nodes[p], c, offsets[p]) <= offsets[q] || SpanEnd(nodes[q], c, offsets[q]) <= offsets[p]
  }

  ghost predicate SpacedBelow(nodes: map<Path, Item>, c: Closing, offsets: map<Path, int>, offset: int) {
    && Spaced(nodes, c, offsets)
    && forall p :: p in nodes && p in offsets ==> SpanEnd(nodes[p], c, offsets[p]) <= offset
  }

  lemma SpacedStart(nodes: map<Path, Item>, c: Closing, offset: int)
    ensures SpacedBelow(nodes, c, map[], offset)
  {
  }

  lemma SpacedStep(nodes: map<Path, Item>, c: Closing, offsets: map<Path, int>, offset: int, p: Path)
    requires SpacedBelow(nodes, c, offsets, offset) && p in nodes && p !in offsets
    ensures SpacedBelow(nodes, c, offsets[p := offset], SpanEnd(nodes[p], c, offset))
  {
    hide OffsetAfter, Stamped;
    SpanGrows(nodes[p], c, offset);
  }

  lemma SpanGrows(item: Item, c: Closing, offset: int)
    ensures offset <= SpanEnd(item, c, offset)
  {
    var x: Task := *;
    StampedOffsets(false, NewsFor(item.value, c.news), OnNew(c.validate, item.value), c.next, offset, x);
  }

  /** The new tasks a node gets of one kind. */
  function NewTasks(item: Item, c: Closing, offset: int, pure: bool): seq<Task> {
    if UpdatedNow(item, c.next)
    then Stamped(pure, NewsFor(item.value, c.news), OnNew(c.validate, item.value), c.next, offset)
    else []
  }

  /** One counter runs over the whole tree, so transition and offset name one new task of one kind in one node. */
  lemma NewKeysAreUnique(
    nodes: map<Path, Item>, c: Closing, offsets: map<Path, int>, p: Path, a: bool, i: nat, q: Path, b: bool, j: nat)
    requires Spaced(nodes, c, offsets) && p in nodes && q in nodes && p in offsets && q in offsets
    requires i < |NewTasks(nodes[p], c, offsets[p], a)| && j < |NewTasks(nodes[q], c, offsets[q], b)|
    requires KeyOf(NewTasks(nodes[p], c, offsets[p], a)[i]) == KeyOf(NewTasks(nodes[q], c, offsets[q], b)[j])
    ensures p == q && a == b && i == j
  {
    hide Stamped, OffsetAfter;
    var x, y := NewTasks(nodes[p], c, offsets[p], a)[i], NewTasks(nodes[q], c, offsets[q], b)[j];
    var np, nq := NewsFor(nodes[p].value, c.news), NewsFor(nodes[q].value, c.news);
    var vp, vq := OnNew(c.validate, nodes[p].value), OnNew(c.validate, nodes[q].value);
    StampedOffsets(a, np, vp, c.next, offsets[p], x);
    StampedOffsets(b, nq, vq, c.next, offsets[q], y);
    if p == q && a != b {
      KindsDiffer(np, vp, c.next, offsets[p], if a then x else y, if a then y else x);
    }
  }

  /** The side-effect tasks handed out for one node, in order. */
  function OfNode(log: seq<Physical>, p: Path): seq<Physical> {
    if log == [] then []
    else (if log[0].SideEffect? && log[0].path == p then [log[0]] else []) + OfNode(log[1..], p)
  }

  function Timers(log: seq<Physical>): seq<Physical> {
    if log == [] then [] else (if log[0].PureTimer? then [log[0]] else []) + Timers(log[1..])
  }

  lemma LogConcat(a: seq<Physical>, b: seq<Physical>, p: Path)
    ensures OfNode(a + b, p) == OfNode(a, p) + OfNode(b, p)
    ensures Timers(a + b) == Timers(a) + Timers(b)
  {
    OfNodeConcat(a, b, p);
    TimersConcat(a, b);
  }

  lemma {:induction false} OfNodeConcat(a: seq<Physical>, b: seq<Physical>, p: Path)
    ensures OfNode(a + b, p) == OfNode(a, p) + OfNode(b, p)
  {
    if a == [] {
      assert a + b == b;
    } else {
      OfNodeConcat(a[1..], b, p);
      assert (a + b)[1..] == a[1..] + b;
      Assoc(if a[0].SideEffect? && a[0].path == p then [a[0]] else [], OfNode(a[1..], p), OfNode(b, p));
    }
  }

  lemma {:induction false} TimersConcat(a: seq<Physical>, b: seq<Physical>)
    ensures Timers(a + b) == Timers(a) + Timers(b)
  {
    if a == [] {
      assert a + b == b;
    } else {
      TimersConcat(a[1..], b);
      assert (a + b)[1..] == a[1..] + b;
      Assoc(if a[0].PureTimer? then [a[0]] else [], Timers(a[1..]), Timers(b));
    }
  }

  lemma Assoc(a: seq<Physical>, b: seq<Physical>, c: seq<Physical>)
    ensures a + b + c == a + (b + c)
  {
  }

  lemma {:induction false} OwnLog(log: seq<Physical>, p: Path, q: Path)
    requires forall i :: 0 <= i < |log| ==> log[i].SideEffect? && log[i].path == p
    ensures OfNode(log, q) == (if q == p then log else []) && Timers(log) == []
  {
    if log == [] {
    } else {
      OwnLog(log[1..], p, q);
    }
  }

  /** `f` carries the least pure task of the nodes in `s`. */
  ghost predicate LeastPure(nodes: map<Path, Item>, s: set<Path>, f: Path) {
    && f in s && f in nodes && PuresOf(nodes[f]) != []
    && forall p :: p in s && p in nodes && PuresOf(nodes[p]) != [] ==>
         Cmp(ByPure, PuresOf(nodes[f])[0], PuresOf(nodes[p])[0]) <= 0
  }

  ghost predicate NoPures(nodes: map<Path, Item>, s: set<Path>) {
    forall p :: p in s && p in nodes ==> PuresOf(nodes[p]) == []
  }

  ghost predicate First(nodes: map<Path, Item>, s: set<Path>, first: Option<Path>) {
    match first
    case None => NoPures(nodes, s)
    case Some(f) => LeastPure(nodes, s, f)
  }

  lemma FirstStep(nodes: map<Path, Item>, s: set<Path>, first: Option<Path>, p: Path)
    requires First(nodes, s, first) && p in nodes && s <= nodes.Keys
    ensures PuresOf(nodes[p]) == [] ==> First(nodes, s + {p}, first)
    ensures PuresOf(nodes[p]) != [] ==>
      if first.None? || Cmp(ByPure, PuresOf(nodes[p])[0], PuresOf(nodes[first.value])[0]) == -1
      then First(nodes, s + {p}, Some(p)) else First(nodes, s + {p}, first)
  {
    hide Cmp;
    if PuresOf(nodes[p]) != [] {
      var t := PuresOf(nodes[p])[0];
      CmpOrder(ByPure, t, t, t);
      if first.Some? {
        var f := PuresOf(nodes[first.value])[0];
        CmpOrder(ByPure, t, f, f);
        forall q | q in s && PuresOf(nodes[q]) != []
          ensures Cmp(ByPure, t, f) == -1 ==> Cmp(ByPure, t, PuresOf(nodes[q])[0]) <= 0
        {
          CmpOrder(ByPure, t, f, PuresOf(nodes[q])[0]);
          CmpOrder(ByPure, f, PuresOf(nodes[q])[0], t);
          CmpOrder(ByPure, PuresOf(nodes[q])[0], t, t);
        }
      }
    }
  }

  function MarkFirstPure(item: Item): Item
    requires PuresOf(item) != []
  {
    var attrs := item.ser.value.attrs;
    WithAttributes(item, attrs.(pures := attrs.pures[0 := attrs.pures[0].(status := Created)]))
  }

  /** Where the loop over the nodes stands. */
  ghost predicate Midway(
    nodes: map<Path, Item>, c: Closing, now: map<Path, Item>, todo: set<Path>,
    offsets: map<Path, int>, log: seq<Physical>)
  {
    now.Keys == nodes.Keys && Timers(log) == [] && forall q :: MidwayAt(nodes, c, now, todo, offsets, log, q)
  }

  ghost predicate MidwayAt(
    nodes: map<Path, Item>, c: Closing, now: map<Path, Item>, todo: set<Path>,
    offsets: map<Path, int>, log: seq<Physical>, q: Path)
    requires now.Keys == nodes.Keys
  {
    if q !in nodes then OfNode(log, q) == []
    else if q in todo then now[q] == nodes[q] && OfNode(log, q) == []
    else
      && q in offsets && !TasksBroken(nodes[q], c) && now[q] == ClosedItem(nodes[q], c, offsets[q])
      && OfNode(log, q) == Emissions(nodes[q], q, c, offsets[q])
  }

  lemma MidwayStep(
    nodes: map<Path, Item>, c: Closing, now: map<Path, Item>, todo: set<Path>,
    offsets: map<Path, int>, log: seq<Physical>, p: Path, item: Item, emitted: seq<Physical>, offset: int)
    requires Midway(nodes, c, now, todo, offsets, log) && p in todo && p in nodes
    requires !TasksBroken(nodes[p], c) && item == ClosedItem(nodes[p], c, offset)
    requires emitted == Emissions(nodes[p], p, c, offset)
    ensures Midway(nodes, c, now[p := item], todo - {p}, offsets[p := offset], log + emitted)
  {
    hide ClosedItem, TasksBroken, Emissions, OfNode, Timers;
    var now', todo', offsets', log' := now[p := item], todo - {p}, offsets[p := offset], log + emitted;
    forall q ensures MidwayAt(nodes, c, now', todo', offsets', log', q) {
      assert MidwayAt(nodes, c, now, todo, offsets, log, q);
      LogConcat(log, emitted, q);
      EmissionsOwn(nodes[p], p, c, offset, q);
      assert [] + emitted == emitted && OfNode(log, q) + [] == OfNode(log, q);
    }
    LogConcat(log, emitted, p);
    EmissionsOwn(nodes[p], p, c, offset, p);
  }

  lemma EmissionsOwn(item: Item, p: Path, c: Closing, offset: int, q: Path)
    ensures var log := Emissions(item, p, c, offset);
      OfNode(log, q) == (if q == p then log else []) && Timers(log) == []
  {
    hide TaskedAttributes, OfNode, Timers, Emitted;
    OwnLog(Emissions(item, p, c, offset), p, q);
  }

  method UpdateComponentTasks(nodes: map<Path, Item>, c: Closing)
    returns (r: Result<map<Path, Item>>, physical: seq<Physical>, first: Option<Path>, timer: bool,
             ghost offsets: map<Path, int>, ghost closed: map<Path, Item>)
    ensures r.Failure? <==> exists p :: p in nodes && TasksBroken(nodes[p], c)
    ensures r.Success? ==>
      && nodes.Keys == offsets.Keys && Spaced(nodes, c, offsets)
      && closed == (map p | p in nodes :: ClosedItem(nodes[p], c, offsets[p]))
      && (forall p :: p in nodes ==> OfNode(physical, p) == Emissions(nodes[p], p, c, offsets[p]))
      && (forall p :: p !in nodes ==> OfNode(physical, p) == [])
      && First(closed, closed.Keys, first)
      && (timer <==> first.Some? && PuresOf(closed[first.value])[0].status == NotCreated)
      && r.value == (if timer then closed[first.value := MarkFirstPure(closed[first.value])] else closed)
      && Timers(physical) ==
           (if timer then [PureTimer(AsTime(PuresOf(closed[first.value])[0].scheduled))] else [])
  {
    hide ClosedItem, TasksBroken, Emissions, OfNode, Timers, Cmp, First, OffsetAfter, Spaced;
    var now, todo, offset := nodes, nodes.Keys, 1;
    physical, first, timer, offsets, closed := [], None, false, map[], nodes;
    assert Midway(nodes, c, now, todo, offsets, physical) by { MidwayStart(nodes, c); }
    assert First(now, nodes.Keys - todo, first) by { FirstStart(now, nodes.Keys - todo); }
    SpacedStart(nodes, c, offset);
    while todo != {}
      invariant todo <= nodes.Keys && offsets.Keys == nodes.Keys - todo
      invariant Midway(nodes, c, now, todo, offsets, physical)
      invariant SpacedBelow(nodes, c, offsets, offset)
      invariant First(now, nodes.Keys - todo, first)
      decreases todo
    {
      var p :| p in todo;
      assert MidwayAt(nodes, c, now, todo, offsets, physical, p);
      SpacedStep(nodes, c, offsets, offset, p);
      FirstIn(now, nodes.Keys - todo, first);
      if !IsComponent(nodes[p]) {
        NotAComponent(nodes[p], p, c, offset);
        MidwayStep(nodes, c, now, todo, offsets, physical, p, nodes[p], [], offset);
        assert now[p := nodes[p]] == now && physical + [] == physical;
        offsets := offsets[p := offset];
      } else {
        var item, emitted, after := UpdateNodeTasks(now[p], p, c, offset);
        if item.Failure? {
          return Failure("task validation failed"), [], None, false, offsets, now;
        }
        MidwayStep(nodes, c, now, todo, offsets, physical, p, item.value, emitted, offset);
        FirstElsewhere(now, nodes.Keys - todo, first, p, item.value);
        now, physical, offsets, offset := now[p := item.value], physical + emitted, offsets[p := offset], after;
      }
      FirstStep(now, nodes.Keys - todo, first, p);
      assert nodes.Keys - todo + {p} == nodes.Keys - (todo - {p});
      if PuresOf(now[p]) != []
         && (first.None? || Cmp(ByPure, PuresOf(now[p])[0], PuresOf(now[first.value])[0]) == -1) {
        first := Some(p);
      }
      todo := todo - {p};
    }
    closed := now;
    assert nodes.Keys - todo == nodes.Keys;
    MidwayEnd(nodes, c, now, offsets, physical);
    FirstIn(now, nodes.Keys, first);
    if first.Some? && PuresOf(now[first.value])[0].status == NotCreated {
      var time := AsTime(PuresOf(now[first.value])[0].scheduled);
      AddTimer(physical, time);
      physical, timer := physical + [PureTimer(time)], true;
      now := now[first.value := MarkFirstPure(now[first.value])];
    }
    r := Success(now);
  }

  lemma MidwayStart(nodes: map<Path, Item>, c: Closing)
    ensures Midway(nodes, c, nodes, nodes.Keys, map[], [])
  {
  }

  lemma MidwayEnd(
    nodes: map<Path, Item>, c: Closing, now: map<Path, Item>, offsets: map<Path, int>, log: seq<Physical>)
    requires Midway(nodes, c, now, {}, offsets, log) && offsets.Keys == nodes.Keys
    ensures now == map p | p in nodes :: ClosedItem(nodes[p], c, offsets[p])
    ensures forall p :: p in nodes ==> OfNode(log, p) == Emissions(nodes[p], p, c, offsets[p])
    ensures forall p :: p !in nodes ==> OfNode(log, p) == []
    ensures Timers(log) == []
    ensures forall p :: p in nodes ==> !TasksBroken(nodes[p], c)
  {
    hide ClosedItem, TasksBroken, Emissions, OfNode, Timers;
    forall p
      ensures p in nodes ==>
        && now[p] == ClosedItem(nodes[p], c, offsets[p]) && !TasksBroken(nodes[p], c)
        && OfNode(log, p) == Emissions(nodes[p], p, c, offsets[p])
      ensures p !in nodes ==> OfNode(log, p) == []
    {
      assert MidwayAt(nodes, c, now, {}, offsets, log, p);
    }
  }

  lemma FirstStart(nodes: map<Path, Item>, s: set<Path>)
    requires s == {}
    ensures First(nodes, s, None)
  {
  }

  lemma FirstIn(nodes: map<Path, Item>, s: set<Path>, first: Option<Path>)
    requires First(nodes, s, first)
    ensures first.Some? ==> first.value in s && first.value in nodes && PuresOf(nodes[first.value]) != []
  {
  }

  lemma FirstElsewhere(nodes: map<Path, Item>, s: set<Path>, first: Option<Path>, p: Path, item: Item)
    requires First(nodes, s, first) && p !in s
    ensures First(nodes[p := item], s, first)
  {
    hide Cmp;
  }

  lemma NotAComponent(item: Item, p: Path, c: Closing, offset: int)
    requires !IsComponent(item)
    ensures ClosedItem(item, c, offset) == item && Emissions(item, p, c, offset) == [] && !TasksBroken(item, c)
  {
  }

  lemma AddTimer(log: seq<Physical>, time: Time)
    ensures forall p :: OfNode(log + [PureTimer(time)], p) == OfNode(log, p)
    ensures Timers(log + [PureTimer(time)]) == Timers(log) + [PureTimer(time)]
  {
    forall p ensures OfNode(log + [PureTimer(time)], p) == OfNode(log, p) {
      LogConcat(log, [PureTimer(time)], p);
      assert [PureTimer(time)][1..] == [];
    }
    LogConcat(log, [PureTimer(time)], []);
  }
}
