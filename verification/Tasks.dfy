/** The two shapes of "maybe absent" used throughout the model. */
module Wrappers {
  datatype Option<+T> = None | Some(value: T)

  datatype Result<+T> = Success(value: T) | Failure(error: string)
}

/** Versioned transitions and their order. */
module Versions {
  /** A nil versioned transition is the zero value, so it is not a separate case. */
  datatype VersionedTransition = VersionedTransition(version: int, count: int)

  type VT = VersionedTransition

  const ZERO := VersionedTransition(0, 0)

  function Compare(a: VT, b: VT): (r: int) {
    if a.version < b.version then -1
    else if a.version > b.version then 1
    else if a.count < b.count then -1
    else if a.count > b.count then 1
    else 0
  }

  predicate Less(a: VT, b: VT) {
    Compare(a, b) == -1
  }
}

/**
  The logical task lists of one component: their two orders, what a transaction
  and a replication message do to them, and the merge of cluster-local status.
 */
module Tasks {
  import opened Wrappers
  import opened Versions

  /** Nanoseconds since the zero time. */
  type Time = int

  /** The time a nil timestamp stands for: the first of January 1970. */
  const UNIX_EPOCH: Time := 62135596800 * 1_000_000_000

  const VISIBILITY_TASK := "core.visTask"

  datatype Status = NotCreated | Created

  /** A data blob: the pointer that keys the cache of task values, and what it holds. */
  datatype Blob = Blob(ref: nat, bytes: string)

  datatype Task = Task(
    typ: string,
    dest: string,
    scheduled: Option<Time>,
    data: Blob,
    vt: VT,
    offset: int,
    status: Status)

  datatype Category = Visibility | Outbound | Transfer | Timer

  function TaskCategory(t: Task): (c: Category) {
    if t.typ == VISIBILITY_TASK then Visibility
    else if t.dest != "" then Outbound
    else if t.scheduled.None? || t.scheduled.value == 0 then Transfer
    else Timer
  }

  function AsTime(scheduled: Option<Time>): Time {
    match scheduled
    case None => UNIX_EPOCH
    case Some(time) => time
  }

  // ---------------------------------------------------------------- orders

  datatype Order = BySideEffect | ByPure

  function CompareSideEffectTasks(a: Task, b: Task): (r: int) {
    var c := Compare(a.vt, b.vt);
    if c != 0 then c else if a.offset < b.offset then -1 else if a.offset > b.offset then 1 else 0
  }

  function ComparePureTasks(a: Task, b: Task): (r: int) {
    if AsTime(a.scheduled) < AsTime(b.scheduled) then -1
    else if AsTime(a.scheduled) > AsTime(b.scheduled) then 1
    else CompareSideEffectTasks(a, b)
  }

  function Cmp(o: Order, a: Task, b: Task): (r: int)
    ensures -1 <= r <= 1
  {
    match o
    case BySideEffect => CompareSideEffectTasks(a, b)
    case ByPure => ComparePureTasks(a, b)
  }

  /** Strictly increasing keys, the shape both stored lists keep. */
  ghost predicate Sorted(o: Order, s: seq<Task>) {
    forall i, j :: 0 <= i < j < |s| ==> Cmp(o, s[i], s[j]) == -1
  }

  /** Tasks with the same key in an order. */
  predicate SameKey(o: Order, a: Task, b: Task) {
    a.vt == b.vt && a.offset == b.offset && (o == ByPure ==> AsTime(a.scheduled) == AsTime(b.scheduled))
  }

  /** Both orders are total, strict, and equal exactly on equal keys. */
  lemma CmpOrder(o: Order, a: Task, b: Task, c: Task)
    ensures Cmp(o, a, b) == -Cmp(o, b, a)
    ensures Cmp(o, a, b) == -1 && Cmp(o, b, c) == -1 ==> Cmp(o, a, c) == -1
    ensures Cmp(o, a, b) == 0 ==> Cmp(o, a, c) == Cmp(o, b, c)
    ensures Cmp(o, a, b) == 0 <==> SameKey(o, a, b)
  {
  }

  // ----------------------------------------------- carrying status over

  /** The entry of `source` with the key of `t`: the lookup the merge refines. */
  function Lookup(o: Order, source: seq<Task>, t: Task): (r: Option<Task>)
    ensures r.Some? ==> r.value in source && Cmp(o, r.value, t) == 0
    ensures r.None? ==> forall s :: s in source ==> Cmp(o, s, t) != 0
  {
    if source == [] then None
    else if Cmp(o, source[0], t) == 0 then Some(source[0])
    else Lookup(o, source[1..], t)
  }

  lemma LookupAt(o: Order, source: seq<Task>, i: nat, t: Task)
    requires Sorted(o, source) && i < |source| && Cmp(o, source[i], t) == 0
    ensures Lookup(o, source, t) == Some(source[i])
  {
    var s := Lookup(o, source, t).value;
    var j :| 0 <= j < |source| && source[j] == s;
    CmpOrder(o, source[i], t, source[j]);
    CmpOrder(o, source[j], t, source[i]);
  }

  function CarryOne(o: Order, source: seq<Task>, t: Task): Task {
    match Lookup(o, source, t)
    case Some(s) => t.(status := s.status, data := s.data)
    case None => t.(status := NotCreated)
  }

  function CarryOver(o: Order, source: seq<Task>, target: seq<Task>): seq<Task> {
    seq(|target|, i requires 0 <= i < |target| => CarryOne(o, source, target[i]))
  }

  /** Blobs of the source tasks that the target no longer lists. */
  function UnmatchedBlobs(o: Order, source: seq<Task>, target: seq<Task>): set<nat> {
    if source == [] then {}
    else
      var n := |source| - 1;
      UnmatchedBlobs(o, source[..n], target) + OwnBlob(o, source[n], target)
  }

  lemma {:induction false} UnmatchedBlobsMeaning(o: Order, source: seq<Task>, target: seq<Task>, b: nat)
    ensures b in UnmatchedBlobs(o, source, target) <==>
      exists i :: 0 <= i < |source| && source[i].data.ref == b && Lookup(o, target, source[i]).None?
  {
    if source == [] {
    } else {
      UnmatchedBlobsMeaning(o, source[..|source| - 1], target, b);
    }
  }

  function OwnBlob(o: Order, s: Task, target: seq<Task>): set<nat> {
    if Lookup(o, target, s).None? then {s.data.ref} else {}
  }

  /** Between two rounds of the merge: the heads `s` and `t` split both lists at the same key. */
  ghost predicate Split(o: Order, source: seq<Task>, target: seq<Task>, s: int, t: int) {
    && 0 <= s <= |source| && 0 <= t <= |target|
    && (forall i, j :: 0 <= i < s && t <= j < |target| ==> Cmp(o, source[i], target[j]) == -1)
    && (forall i, j :: s <= i < |source| && 0 <= j < t ==> Cmp(o, target[j], source[i]) == -1)
  }

  /** The first `t` targets are done and the others untouched. */
  ghost predicate Carrying(o: Order, source: seq<Task>, target: seq<Task>, t: int, out: seq<Task>) {
    && 0 <= t <= |target| == |out|
    && (forall j :: 0 <= j < t ==> out[j] == CarryOne(o, source, target[j]))
    && (forall j :: t <= j < |target| ==> out[j] == target[j])
  }

  /** The two-pointer merge refines key lookup, task by task and blob by blob. */
  method CarryOverTaskStatus(o: Order, source: seq<Task>, target: seq<Task>, cache: set<nat>)
    returns (out: seq<Task>, kept: set<nat>)
    requires Sorted(o, source) && Sorted(o, target)
    ensures out == CarryOver(o, source, target)
    ensures kept == cache - UnmatchedBlobs(o, source, target)
  {
    hide Cmp, CarryOne, Lookup, OwnBlob, Split, UnmatchedBlobs, Sorted;
    assert Split(o, source, target, 0, 0) by { SplitStart(o, source, target); }
    NoBlobs(o, source, target);
    out, kept := target, cache;
    var s, t := 0, 0;
    while s < |source| && t < |target|
      invariant 0 <= s <= |source| && 0 <= t <= |target|
      invariant Split(o, source, target, s, t)
      invariant Carrying(o, source, target, t, out)
      invariant kept == cache - UnmatchedBlobs(o, source[..s], target)
      decreases |source| - s + |target| - t
    {
      MergeStep(o, source, target, s, t);
      var sourceTask := source[s];
      var c := Cmp(o, sourceTask, target[t]);
      if c == 0 {
        out := out[t := target[t].(status := sourceTask.status, data := sourceTask.data)];
        BlobStep(o, source, target, s);
        s, t := s + 1, t + 1;
      } else if c == -1 {
        kept := kept - {sourceTask.data.ref};
        BlobStep(o, source, target, s);
        s := s + 1;
      } else {
        out := out[t := target[t].(status := NotCreated)];
        t := t + 1;
      }
    }
    while t < |target|
      invariant s <= |source| && t <= |target| && (t < |target| ==> s == |source|)
      invariant Split(o, source, target, s, t)
      invariant Carrying(o, source, target, t, out)
    {
      TailNew(o, source, target, t);
      out := out[t := target[t].(status := NotCreated)];
      t := t + 1;
    }
    while s < |source|
      invariant s <= |source| && Split(o, source, target, s, |target|)
      invariant kept == cache - UnmatchedBlobs(o, source[..s], target)
    {
      TailUnmatched(o, source, target, s);
      BlobStep(o, source, target, s);
      kept := kept - {source[s].data.ref};
      s := s + 1;
    }
    assert source[..s] == source;
  }

  lemma NoBlobs(o: Order, source: seq<Task>, target: seq<Task>)
    ensures UnmatchedBlobs(o, source[..0], target) == {}
    ensures source[..|source|] == source
  {
  }

  lemma SplitStart(o: Order, source: seq<Task>, target: seq<Task>)
    ensures Split(o, source, target, 0, 0)
  {
  }

  lemma BlobStep(o: Order, source: seq<Task>, target: seq<Task>, s: nat)
    requires s < |source|
    ensures UnmatchedBlobs(o, source[..s + 1], target)
      == UnmatchedBlobs(o, source[..s], target) + OwnBlob(o, source[s], target)
  {
    assert source[..s + 1][..s] == source[..s];
  }

  lemma TailUnmatched(o: Order, source: seq<Task>, target: seq<Task>, s: nat)
    requires s < |source| && Split(o, source, target, s, |target|)
    ensures OwnBlob(o, source[s], target) == {source[s].data.ref}
    ensures Split(o, source, target, s + 1, |target|)
  {
    forall j | 0 <= j < |target| ensures Cmp(o, target[j], source[s]) != 0 {
      CmpOrder(o, target[j], source[s], source[s]);
    }
  }

  lemma TailNew(o: Order, source: seq<Task>, target: seq<Task>, t: nat)
    requires t < |target| && Split(o, source, target, |source|, t)
    ensures CarryOne(o, source, target[t]) == target[t].(status := NotCreated)
    ensures Split(o, source, target, |source|, t + 1)
  {
    forall i | 0 <= i < |source| ensures Cmp(o, source[i], target[t]) != 0 {
      CmpOrder(o, source[i], target[t], target[t]);
    }
  }

  /** One comparison of the merge decides the lookups of both heads and keeps the split. */
  lemma MergeStep(o: Order, source: seq<Task>, target: seq<Task>, s: nat, t: nat)
    requires Sorted(o, source) && Sorted(o, target)
    requires s < |source| && t < |target| && Split(o, source, target, s, t)
    ensures Cmp(o, source[s], target[t]) == 0 ==>
      && CarryOne(o, source, target[t]) == target[t].(status := source[s].status, data := source[s].data)
      && OwnBlob(o, source[s], target) == {} && Split(o, source, target, s + 1, t + 1)
    ensures Cmp(o, source[s], target[t]) == -1 ==>
      && OwnBlob(o, source[s], target) == {source[s].data.ref} && Split(o, source, target, s + 1, t)
    ensures Cmp(o, source[s], target[t]) == 1 ==>
      && CarryOne(o, source, target[t]) == target[t].(status := NotCreated)
      && Split(o, source, target, s, t + 1)
  {
    var c := Cmp(o, source[s], target[t]);
    CmpOrder(o, source[s], target[t], target[t]);
    if c == 0 {
      LookupAt(o, source, s, target[t]);
      LookupAt(o, target, t, source[s]);
    }
    forall j | t < j < |target| ensures c != 1 ==> Cmp(o, source[s], target[j]) == -1 {
      CmpOrder(o, source[s], target[t], target[j]);
    }
    forall i | s < i < |source| ensures c != -1 ==> Cmp(o, target[t], source[i]) == -1 {
      CmpOrder(o, target[t], source[s], source[i]);
    }
    forall j | 0 <= j < |target| ensures c == -1 ==> Cmp(o, target[j], source[s]) != 0 {
      CmpOrder(o, target[j], source[s], source[s]);
    }
    forall i | 0 <= i < |source| ensures c == 1 ==> Cmp(o, source[i], target[t]) != 0 {
      CmpOrder(o, source[i], target[t], target[t]);
    }
  }
}
