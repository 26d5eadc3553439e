/**
  What one transaction does to one component's lists of tasks, and why the
  backward scan for physical tasks neither loses nor repeats one.
 */
module TaskLists {
  import opened Wrappers
  import opened Versions
  import opened Tasks

  /** The answer of a registered task validator. */
  datatype Verdict = Valid | Invalid | Broken

  datatype NewTask = NewTask(typ: string, dest: string, scheduled: Time, data: Blob, pure: bool)

  /** A task may have a destination or a scheduled time, not both. */
  predicate AttributesValid(n: NewTask) {
    n.dest == "" || n.scheduled == 0
  }

  // ------------------------------------------------------------ pruning

  function Prune(tasks: seq<Task>, verdict: Task -> Verdict): (r: seq<Task>)
    ensures forall t :: t in r <==> t in tasks && verdict(t) != Invalid
    ensures |r| <= |tasks|
  {
    if tasks == [] then []
    else if verdict(tasks[0]) == Invalid then Prune(tasks[1..], verdict)
    else [tasks[0]] + Prune(tasks[1..], verdict)
  }

  lemma {:induction false} PruneKeepsOrder(o: Order, tasks: seq<Task>, verdict: Task -> Verdict)
    requires Sorted(o, tasks)
    ensures Sorted(o, Prune(tasks, verdict))
  {
    if tasks == [] {
    } else {
      PruneKeepsOrder(o, tasks[1..], verdict);
      var r := Prune(tasks[1..], verdict);
      forall j | 0 <= j < |r| ensures Cmp(o, tasks[0], r[j]) == -1 {
        assert r[j] in tasks[1..];
      }
    }
  }

  // ---------------------------------------------------------- new tasks

  function Stamp(n: NewTask, next: VT, offset: int): Task {
    Task(n.typ, n.dest, Some(n.scheduled), n.data, next, offset, NotCreated)
  }

  /** The valid new tasks of one kind, stamped with consecutive offsets over both kinds. */
  function Stamped(pure: bool, news: seq<NewTask>, verdict: NewTask -> Verdict, next: VT, offset: int)
    : (r: seq<Task>)
    ensures forall i :: 0 <= i < |r| ==> r[i].vt == next && r[i].status == NotCreated && offset <= r[i].offset
    ensures forall i, j :: 0 <= i < j < |r| ==> r[i].offset < r[j].offset
  {
    if news == [] then []
    else if verdict(news[0]) != Valid then Stamped(pure, news[1..], verdict, next, offset)
    else
      var rest := Stamped(pure, news[1..], verdict, next, offset + 1);
      if news[0].pure == pure then [Stamp(news[0], next, offset)] + rest else rest
  }

  function OffsetAfter(news: seq<NewTask>, verdict: NewTask -> Verdict, offset: int): int {
    if news == [] then offset
    else OffsetAfter(news[1..], verdict, if verdict(news[0]) == Valid then offset + 1 else offset)
  }

  lemma {:induction false} StampedOffsets(
    pure: bool, news: seq<NewTask>, verdict: NewTask -> Verdict, next: VT, offset: int, x: Task)
    ensures offset <= OffsetAfter(news, verdict, offset)
    ensures x in Stamped(pure, news, verdict, next, offset) ==> offset <= x.offset < OffsetAfter(news, verdict, offset)
  {
    if news == [] {
    } else {
      var after := if verdict(news[0]) == Valid then offset + 1 else offset;
      StampedOffsets(pure, news[1..], verdict, next, after, x);
    }
  }

  /** The two kinds share one counter. */
  lemma {:induction false} KindsDiffer(
    news: seq<NewTask>, verdict: NewTask -> Verdict, next: VT, offset: int, x: Task, y: Task)
    requires x in Stamped(true, news, verdict, next, offset) && y in Stamped(false, news, verdict, next, offset)
    ensures x.offset != y.offset
  {
    var after := if verdict(news[0]) == Valid then offset + 1 else offset;
    StampedOffsets(true, news[1..], verdict, next, after, x);
    StampedOffsets(false, news[1..], verdict, next, after, y);
    if x in Stamped(true, news[1..], verdict, next, after) && y in Stamped(false, news[1..], verdict, next, after) {
      KindsDiffer(news[1..], verdict, next, after, x, y);
    }
  }

  /** Some task has clashing attributes or a validator that fails. */
  predicate Refused(news: seq<NewTask>, verdict: NewTask -> Verdict) {
    exists n :: n in news && (!AttributesValid(n) || verdict(n) == Broken)
  }

  /** The new tasks of a component, appended to its two lists; the pure list is sorted again if it grew. */
  method HandleNewTasks(
    sideEffects: seq<Task>, pures: seq<Task>, news: seq<NewTask>, verdict: NewTask -> Verdict, next: VT, offset: int)
    returns (r: Result<(seq<Task>, seq<Task>)>, after: int)
    ensures r.Failure? <==> Refused(news, verdict)
    ensures r.Success? ==>
      && r.value.0 == sideEffects + Stamped(false, news, verdict, next, offset)
      && r.value.1 == WithNewPures(pures, Stamped(true, news, verdict, next, offset))
      && after == OffsetAfter(news, verdict, offset)
  {
    hide Stamped, OffsetAfter, SortPure, AttributesValid, SoFar, Stamp;
    var s, p, sortPureTasks := sideEffects, pures, false;
    after := offset;
    SoFarStart(false, sideEffects, news, verdict, next, offset);
    SoFarStart(true, pures, news, verdict, next, offset);
    for i := 0 to |news|
      invariant forall j :: 0 <= j < i ==> AttributesValid(news[j]) && verdict(news[j]) != Broken
      invariant SoFar(false, sideEffects, s, news, i, verdict, next, offset, after)
      invariant SoFar(true, pures, p, news, i, verdict, next, offset, after)
      invariant |p| >= |pures| && (sortPureTasks <==> |p| > |pures|)
    {
      var n := news[i];
      assert n in news;
      if !AttributesValid(n) || verdict(n) == Broken {
        return Failure("task attributes or validation"), after;
      }
      SoFarStep(false, sideEffects, s, news, i, verdict, next, offset, after);
      SoFarStep(true, pures, p, news, i, verdict, next, offset, after);
      if verdict(n) == Valid {
        var task := Stamp(n, next, after);
        if n.pure {
          p := p + [task];
          sortPureTasks := true;
        } else {
          s := s + [task];
        }
        after := after + 1;
      }
    }
    SoFarEnd(false, sideEffects, s, news, verdict, next, offset, after);
    SoFarEnd(true, pures, p, news, verdict, next, offset, after);
    ghost var new' := Stamped(true, news, verdict, next, offset);
    assert new' == [] ==> pures + new' == pures;
    if sortPureTasks {
      p := SortPure(p);
    }
    r := Success((s, p));
  }

  /** A list that has taken in the first `i` new tasks of its kind. */
  ghost predicate SoFar(
    pure: bool, base: seq<Task>, list: seq<Task>, news: seq<NewTask>, i: nat, verdict: NewTask -> Verdict, next: VT,
    offset: int, after: int)
  {
    && i <= |news|
    && list + Stamped(pure, news[i..], verdict, next, after) == base + Stamped(pure, news, verdict, next, offset)
    && OffsetAfter(news[i..], verdict, after) == OffsetAfter(news, verdict, offset)
  }

  lemma SoFarStart(pure: bool, base: seq<Task>, news: seq<NewTask>, verdict: NewTask -> Verdict, next: VT, offset: int)
    ensures SoFar(pure, base, base, news, 0, verdict, next, offset, offset)
  {
    assert news[0..] == news;
  }

  lemma SoFarStep(
    pure: bool, base: seq<Task>, list: seq<Task>, news: seq<NewTask>, i: nat, verdict: NewTask -> Verdict, next: VT,
    offset: int, after: int)
    requires SoFar(pure, base, list, news, i, verdict, next, offset, after) && i < |news|
    ensures var valid := verdict(news[i]) == Valid;
      SoFar(pure, base, if valid && news[i].pure == pure then list + [Stamp(news[i], next, after)] else list,
            news, i + 1, verdict, next, offset, if valid then after + 1 else after)
  {
    hide Stamped, OffsetAfter, Stamp;
    StampedStep(pure, news, i, verdict, next, after);
  }

  lemma SoFarEnd(
    pure: bool, base: seq<Task>, list: seq<Task>, news: seq<NewTask>, verdict: NewTask -> Verdict, next: VT,
    offset: int, after: int)
    requires SoFar(pure, base, list, news, |news|, verdict, next, offset, after)
    ensures list == base + Stamped(pure, news, verdict, next, offset) && after == OffsetAfter(news, verdict, offset)
  {
    NothingStamped(news, verdict, next, after);
    assert list + [] == list;
  }

  lemma StampedStep(pure: bool, news: seq<NewTask>, i: nat, verdict: NewTask -> Verdict, next: VT, offset: int)
    requires i < |news|
    ensures Stamped(pure, news[i..], verdict, next, offset) ==
      if verdict(news[i]) != Valid then Stamped(pure, news[i + 1..], verdict, next, offset)
      else if news[i].pure == pure
        then [Stamp(news[i], next, offset)] + Stamped(pure, news[i + 1..], verdict, next, offset + 1)
      else Stamped(pure, news[i + 1..], verdict, next, offset + 1)
    ensures OffsetAfter(news[i..], verdict, offset) ==
      OffsetAfter(news[i + 1..], verdict, if verdict(news[i]) == Valid then offset + 1 else offset)
  {
    assert news[i..][1..] == news[i + 1..];
  }

  lemma NothingStamped(news: seq<NewTask>, verdict: NewTask -> Verdict, next: VT, offset: int)
    ensures forall pure :: Stamped(pure, news[|news|..], verdict, next, offset) == []
    ensures OffsetAfter(news[|news|..], verdict, offset) == offset
  {
  }

  function WithNewPures(pures: seq<Task>, new': seq<Task>): seq<Task> {
    if new' == [] then pures else SortPure(pures + new')
  }

  // ------------------------------------------------ sorting pure tasks

  function Insert(s: seq<Task>, t: Task): (r: seq<Task>)
    ensures multiset(r) == multiset(s) + multiset{t}
  {
    if s == [] || ComparePureTasks(t, s[0]) == -1 then [t] + s
    else
      assert s == [s[0]] + s[1..];
      [s[0]] + Insert(s[1..], t)
  }

  function SortPure(s: seq<Task>): (r: seq<Task>)
    ensures multiset(r) == multiset(s)
  {
    if s == [] then []
    else
      assert s == s[..|s| - 1] + [s[|s| - 1]];
      Insert(SortPure(s[..|s| - 1]), s[|s| - 1])
  }

  ghost predicate DistinctKeys(s: seq<Task>) {
    forall i, j :: 0 <= i < j < |s| ==> Cmp(ByPure, s[i], s[j]) != 0
  }

  lemma {:induction false} InsertSorted(s: seq<Task>, t: Task)
    requires Sorted(ByPure, s)
    requires forall x :: x in s ==> Cmp(ByPure, t, x) != 0
    ensures Sorted(ByPure, Insert(s, t))
  {
    hide Cmp, ComparePureTasks;
    if s == [] {
    } else {
      SameOrder(t, s[0]);
    }
    if s != [] && Cmp(ByPure, t, s[0]) != -1 {
      InsertSorted(s[1..], t);
      var r := Insert(s[1..], t);
      CmpOrder(ByPure, t, s[0], s[0]);
      forall j | 0 <= j < |r| ensures Cmp(ByPure, s[0], r[j]) == -1 {
        assert r[j] in multiset(r);
      }
    } else if s != [] {
      forall j | 0 <= j < |s| ensures Cmp(ByPure, t, s[j]) == -1 {
        CmpOrder(ByPure, t, s[0], s[j]);
      }
    }
  }

  lemma SameOrder(a: Task, b: Task)
    ensures Cmp(ByPure, a, b) == ComparePureTasks(a, b)
  {
  }

  lemma {:induction false} SortPureSorts(s: seq<Task>)
    requires DistinctKeys(s)
    ensures Sorted(ByPure, SortPure(s))
  {
    hide Cmp, ComparePureTasks, Insert;
    if s == [] {
    } else {
      var n := |s| - 1;
      SortPureSorts(s[..n]);
      forall x | x in SortPure(s[..n]) ensures Cmp(ByPure, s[n], x) != 0 {
        assert x in multiset(s[..n]);
        var i :| 0 <= i < n && s[i] == x;
        CmpOrder(ByPure, s[n], x, x);
      }
      InsertSorted(SortPure(s[..n]), s[n]);
    }
  }

  // ------------------------------------------------- the backward scan

  /** Everything the scan reaches is marked. */
  function Marked(tasks: seq<Task>): (r: seq<Task>)
    ensures |r| == |tasks|
    ensures forall i :: 0 <= i < |r| ==> r[i] == tasks[i] || r[i] == tasks[i].(status := Created)
  {
    var n := |tasks| - 1;
    if tasks == [] || tasks[n].status == Created then tasks
    else Marked(tasks[..n]) + [tasks[n].(status := Created)]
  }

  /** What the scan hands to the backend, newest first. */
  function Emitted(tasks: seq<Task>): (r: seq<Task>) {
    var n := |tasks| - 1;
    if tasks == [] || tasks[n].status == Created then [] else [tasks[n]] + Emitted(tasks[..n])
  }

  /** Created tasks followed by tasks that have no physical task yet. */
  ghost predicate CreatedFirst(tasks: seq<Task>) {
    forall i, j :: 0 <= i < j < |tasks| && tasks[i].status == NotCreated ==> tasks[j].status == NotCreated
  }

  ghost predicate AllCreated(tasks: seq<Task>) {
    forall i :: 0 <= i < |tasks| ==> tasks[i].status == Created
  }

  method ScanSideEffects(tasks: seq<Task>) returns (out: seq<Task>, emitted: seq<Task>)
    ensures out == Marked(tasks)
    ensures emitted == Emitted(tasks)
  {
    hide Marked, Emitted;
    out, emitted := tasks, [];
    var idx := |tasks|;
    assert tasks[..idx] == tasks;
    while idx > 0
      invariant 0 <= idx <= |tasks| == |out|
      invariant out[..idx] == tasks[..idx]
      invariant Marked(tasks) == Marked(tasks[..idx]) + out[idx..]
      invariant Emitted(tasks) == emitted + Emitted(tasks[..idx])
    {
      ScanStep(tasks, idx);
      assert out[idx - 1] == tasks[..idx][idx - 1];
      if out[idx - 1].status == Created {
        break;
      }
      emitted := emitted + [out[idx - 1]];
      ghost var before := out[idx..];
      out := out[idx - 1 := out[idx - 1].(status := Created)];
      assert out[idx - 1..] == [out[idx - 1]] + before;
      idx := idx - 1;
    }
    assert idx == 0 ==> tasks[..idx] == [];
    NothingToScan();
    assert out == tasks[..idx] + out[idx..];
  }

  lemma NothingToScan()
    ensures Marked([]) == [] && Emitted([]) == []
  {
  }

  lemma ScanStep(tasks: seq<Task>, idx: nat)
    requires 0 < idx <= |tasks|
    ensures tasks[idx - 1].status == Created ==> Marked(tasks[..idx]) == tasks[..idx] && Emitted(tasks[..idx]) == []
    ensures tasks[idx - 1].status == NotCreated ==>
      && Marked(tasks[..idx]) == Marked(tasks[..idx - 1]) + [tasks[idx - 1].(status := Created)]
      && Emitted(tasks[..idx]) == [tasks[idx - 1]] + Emitted(tasks[..idx - 1])
  {
    assert tasks[..idx][..idx - 1] == tasks[..idx - 1];
  }

  /**
    Stopping at the first created task is right exactly on lists of the kept shape: then, and
    only then, every task ends up created.
   */
  lemma {:induction false} ScanReachesAllIff(tasks: seq<Task>)
    ensures AllCreated(Marked(tasks)) <==> CreatedFirst(tasks)
  {
    var n := |tasks| - 1;
    if tasks == [] || tasks[n].status == Created {
    } else {
      ScanReachesAllIff(tasks[..n]);
      var m := Marked(tasks[..n]);
      assert Marked(tasks)[..n] == m;
      assert AllCreated(Marked(tasks)) <==> AllCreated(m);
      assert CreatedFirst(tasks) <==> CreatedFirst(tasks[..n]);
    }
  }

  /** On such a list the scan hands out the tasks without a physical task, each once, newest first. */
  lemma {:induction false} ScanEmitsPending(tasks: seq<Task>)
    requires CreatedFirst(tasks)
    ensures |Emitted(tasks)| == |Pending(tasks)|
    ensures forall i :: 0 <= i < |Emitted(tasks)| ==> Emitted(tasks)[i] == Pending(tasks)[|Pending(tasks)| - 1 - i]
  {
    hide Pending;
    var n := |tasks| - 1;
    if tasks == [] || tasks[n].status == Created {
      NothingPending(tasks);
    } else {
      ScanEmitsPending(tasks[..n]);
      PendingAppend(tasks[..n], tasks[n]);
      assert tasks == tasks[..n] + [tasks[n]];
      assert Pending(tasks) == Pending(tasks[..n]) + [tasks[n]];
      assert Emitted(tasks) == [tasks[n]] + Emitted(tasks[..n]);
    }
  }

  /** The tasks still without a physical task, in list order: the reference for the scan. */
  function Pending(tasks: seq<Task>): (r: seq<Task>) {
    if tasks == [] then []
    else (if tasks[0].status == NotCreated then [tasks[0]] else []) + Pending(tasks[1..])
  }

  lemma {:induction false} PendingAppend(tasks: seq<Task>, t: Task)
    ensures Pending(tasks + [t]) == Pending(tasks) + (if t.status == NotCreated then [t] else [])
  {
    if tasks == [] {
      assert ([t])[1..] == [];
    } else {
      PendingAppend(tasks[1..], t);
      assert (tasks + [t])[1..] == tasks[1..] + [t];
    }
  }

  lemma {:induction false} NothingPending(tasks: seq<Task>)
    requires AllCreated(tasks)
    ensures Pending(tasks) == []
  {
    if tasks == [] {
    } else {
      NothingPending(tasks[1..]);
    }
  }

  function Reset(tasks: seq<Task>): (r: seq<Task>)
  {
    seq(|tasks|, i requires 0 <= i < |tasks| => tasks[i].(status := NotCreated))
  }

  // ------------------------------------- one list over a whole run

  type Key = (VT, int)

  function KeyOf(t: Task): Key {
    (t.vt, t.offset)
  }

  predicate KeyLess(a: Key, b: Key) {
    Less(a.0, b.0) || (a.0 == b.0 && a.1 < b.1)
  }

  /**
    A side-effect list in one cluster, with the keys handed to the backend since the status was
    last reset and the newest key the cluster has seen for this component.
   */
  datatype Ledger = Ledger(tasks: seq<Task>, log: multiset<Key>, horizon: Key)

  datatype Step =
    | CloseStep(updated: bool, next: VT, verdict: Task -> Verdict,
                news: seq<NewTask>, newVerdict: NewTask -> Verdict, offset: int)
    | RefreshStep
    | ReplicateStep(incoming: seq<Task>)

  /** The list after invalid tasks are removed and valid new ones appended. */
  function Updated(tasks: seq<Task>, s: Step): seq<Task>
    requires s.CloseStep?
  {
    if s.updated
    then Prune(tasks, s.verdict) + Stamped(false, s.news, s.newVerdict, s.next, s.offset)
    else tasks
  }

  function KeysOf(tasks: seq<Task>): (r: multiset<Key>)
  {
    if tasks == [] then multiset{} else multiset{KeyOf(tasks[0])} + KeysOf(tasks[1..])
  }

  function LastKey(tasks: seq<Task>, horizon: Key): Key {
    if tasks != [] && KeyLess(horizon, KeyOf(tasks[|tasks| - 1])) then KeyOf(tasks[|tasks| - 1]) else horizon
  }

  function Take(l: Ledger, s: Step): Ledger {
    match s
    case CloseStep(_, _, _, _, _, _) =>
      var tasks := Updated(l.tasks, s);
      Ledger(Marked(tasks), l.log + KeysOf(Emitted(tasks)), LastKey(tasks, l.horizon))
    case RefreshStep => Ledger(Reset(l.tasks), multiset{}, l.horizon)
    case ReplicateStep(incoming) =>
      Ledger(CarryOver(BySideEffect, l.tasks, incoming), l.log, LastKey(incoming, l.horizon))
  }

  /**
    The next transition of a transaction is newer than everything seen; a replicated list arrives
    in order: a task the cluster does not hold is newer than everything it has seen.
   */
  ghost predicate Allowed(l: Ledger, s: Step) {
    match s
    case CloseStep(updated, next, _, _, _, _) => updated ==> Less(l.horizon.0, next)
    case RefreshStep => true
    case ReplicateStep(incoming) =>
      && Sorted(BySideEffect, incoming)
      && forall t :: t in incoming ==>
           Lookup(BySideEffect, l.tasks, t).Some? || KeyLess(l.horizon, KeyOf(t))
  }

  ghost predicate Sound(l: Ledger) {
    && Sorted(BySideEffect, l.tasks)
    && CreatedFirst(l.tasks)
    && (forall t :: t in l.tasks ==> !KeyLess(l.horizon, KeyOf(t)))
    && (forall t :: t in l.tasks ==> l.log[KeyOf(t)] == if t.status == Created then 1 else 0)
    && (forall k :: l.log[k] <= 1)
    && (forall k :: k in l.log ==> !KeyLess(l.horizon, k))
  }

  ghost predicate AllowedRun(l: Ledger, run: seq<Step>)
    decreases |run|
  {
    run == [] || (Allowed(l, run[0]) && AllowedRun(Take(l, run[0]), run[1..]))
  }

  function After(l: Ledger, run: seq<Step>): Ledger
    decreases |run|
  {
    if run == [] then l else After(Take(l, run[0]), run[1..])
  }

  lemma {:induction false} PruneKeepsShape(tasks: seq<Task>, verdict: Task -> Verdict)
    requires CreatedFirst(tasks)
    ensures CreatedFirst(Prune(tasks, verdict))
  {
    if tasks == [] {
    } else {
      PruneKeepsShape(tasks[1..], verdict);
      var r := Prune(tasks[1..], verdict);
      forall j | 0 <= j < |r| && tasks[0].status == NotCreated ensures r[j].status == NotCreated {
        assert r[j] in tasks[1..];
      }
    }
  }

  /** The scan hands out the key of every uncreated task once, and no other key. */
  lemma {:induction false} EmittedKeys(tasks: seq<Task>, k: Key)
    requires Sorted(BySideEffect, tasks) && CreatedFirst(tasks)
    ensures KeysOf(Emitted(tasks))[k] ==
      if exists i :: 0 <= i < |tasks| && tasks[i].status == NotCreated && KeyOf(tasks[i]) == k then 1 else 0
  {
    var n := |tasks| - 1;
    if tasks == [] || tasks[n].status == Created {
    } else {
      EmittedKeys(tasks[..n], k);
      assert Emitted(tasks)[1..] == Emitted(tasks[..n]);
      if KeyOf(tasks[n]) == k {
        forall i | 0 <= i < n ensures KeyOf(tasks[i]) != k {
          assert Cmp(BySideEffect, tasks[i], tasks[n]) == -1;
        }
      } else if i :| 0 <= i < |tasks| && tasks[i].status == NotCreated && KeyOf(tasks[i]) == k {
        assert tasks[..n][i] == tasks[i];
      }
    }
  }

  /** Pruning and appending keep order and shape, and every appended key is new. */
  lemma UpdatedIsSound(l: Ledger, s: Step)
    requires Sound(l) && s.CloseStep? && Allowed(l, s)
    ensures Sorted(BySideEffect, Updated(l.tasks, s)) && CreatedFirst(Updated(l.tasks, s))
    ensures forall t :: t in Updated(l.tasks, s) ==> l.log[KeyOf(t)] == if t.status == Created then 1 else 0
  {
    if s.updated {
      var old', new' := Prune(l.tasks, s.verdict), Stamped(false, s.news, s.newVerdict, s.next, s.offset);
      PruneKeepsOrder(BySideEffect, l.tasks, s.verdict);
      PruneKeepsShape(l.tasks, s.verdict);
      forall i, j | 0 <= i < |old'| && 0 <= j < |new'| ensures Cmp(BySideEffect, old'[i], new'[j]) == -1 {
        assert old'[i] in l.tasks;
      }
      forall t | t in new' ensures l.log[KeyOf(t)] == 0 {
        assert KeyLess(l.horizon, KeyOf(t));
      }
      assert forall t :: t in old' + new' ==> t in old' || t in new';
    }
  }

  lemma LastKeyBounds(tasks: seq<Task>, horizon: Key, k: Key)
    requires Sorted(BySideEffect, tasks)
    ensures forall t :: t in tasks ==> !KeyLess(LastKey(tasks, horizon), KeyOf(t))
    ensures !KeyLess(horizon, k) ==> !KeyLess(LastKey(tasks, horizon), k)
  {
    forall t | t in tasks ensures !KeyLess(LastKey(tasks, horizon), KeyOf(t)) {
      var i :| 0 <= i < |tasks| && tasks[i] == t;
      assert i < |tasks| - 1 ==> Cmp(BySideEffect, tasks[i], tasks[|tasks| - 1]) == -1;
    }
  }

  lemma MarkedKeepsKeys(tasks: seq<Task>)
    requires Sorted(BySideEffect, tasks)
    ensures Sorted(BySideEffect, Marked(tasks))
  {
    var m := Marked(tasks);
    forall i, j | 0 <= i < j < |m| ensures Cmp(BySideEffect, m[i], m[j]) == -1 {
      assert Cmp(BySideEffect, tasks[i], tasks[j]) == -1;
    }
  }

  lemma CloseKeepsSound(l: Ledger, s: Step)
    requires Sound(l) && s.CloseStep? && Allowed(l, s)
    ensures Sound(Take(l, s)) && AllCreated(Take(l, s).tasks)
  {
    hide KeyLess, LastKey, Cmp, Emitted, Marked, KeysOf, Updated;
    var tasks, l' := Updated(l.tasks, s), Take(l, s);
    UpdatedIsSound(l, s);
    ScanReachesAllIff(tasks);
    MarkedKeepsKeys(tasks);
    forall k ensures l'.log[k] <= 1 && (k in l'.log ==> !KeyLess(l'.horizon, k)) {
      EmittedKeys(tasks, k);
      LastKeyBounds(tasks, l.horizon, k);
    }
    forall t | t in l'.tasks ensures !KeyLess(l'.horizon, KeyOf(t)) && l'.log[KeyOf(t)] == 1 {
      var i :| 0 <= i < |tasks| && l'.tasks[i] == t;
      assert tasks[i] in tasks && KeyOf(tasks[i]) == KeyOf(t);
      EmittedKeys(tasks, KeyOf(t));
      LastKeyBounds(tasks, l.horizon, KeyOf(t));
    }
  }

  lemma ReplicateKeepsSound(l: Ledger, s: Step)
    requires Sound(l) && s.ReplicateStep? && Allowed(l, s)
    ensures Sound(Take(l, s))
  {
    hide KeyLess, LastKey, Cmp, CarryOne, Lookup;
    var t', l' := s.incoming, Take(l, s);
    forall i, j | 0 <= i < j < |t'|
      ensures Cmp(BySideEffect, l'.tasks[i], l'.tasks[j]) == -1
      ensures l'.tasks[i].status == NotCreated ==> l'.tasks[j].status == NotCreated
    {
      CarriedTask(l, t', i);
      CarriedTask(l, t', j);
      SameKeys(t'[i], t'[j], l'.tasks[i], l'.tasks[j]);
      if l'.tasks[i].status == NotCreated {
        LedgerInOrder(l, t');
        CarryPair(l.tasks, t', i, j);
      }
    }
    forall k ensures k in l'.log ==> !KeyLess(l'.horizon, k) {
      LastKeyBounds(t', l.horizon, k);
    }
    forall t | t in l'.tasks
      ensures !KeyLess(l'.horizon, KeyOf(t)) && l'.log[KeyOf(t)] == if t.status == Created then 1 else 0
    {
      var i :| 0 <= i < |t'| && l'.tasks[i] == t;
      CarriedTask(l, t', i);
      assert t'[i] in t';
      LastKeyBounds(t', l.horizon, KeyOf(t));
    }
  }

  lemma SameKeys(a: Task, b: Task, a': Task, b': Task)
    requires KeyOf(a) == KeyOf(a') && KeyOf(b) == KeyOf(b')
    ensures Cmp(BySideEffect, a, b) == Cmp(BySideEffect, a', b')
  {
  }

  lemma CarriedTask(l: Ledger, incoming: seq<Task>, i: nat)
    requires Sound(l) && Allowed(l, ReplicateStep(incoming)) && i < |incoming|
    ensures var t := CarryOne(BySideEffect, l.tasks, incoming[i]);
      KeyOf(t) == KeyOf(incoming[i]) && l.log[KeyOf(t)] == if t.status == Created then 1 else 0
  {
    assert incoming[i] in incoming;
  }

  /** An incoming list brings no task the local list lacks but newer ones. */
  ghost predicate InOrder(local: seq<Task>, incoming: seq<Task>) {
    && Sorted(BySideEffect, incoming)
    && forall s, t :: s in local && t in incoming && Lookup(BySideEffect, local, t).None? ==>
         Cmp(BySideEffect, s, t) == -1
  }

  /** Then a task without status never sits before one that has it. */
  lemma CarryPair(local: seq<Task>, incoming: seq<Task>, i: nat, j: nat)
    requires Sorted(BySideEffect, local) && CreatedFirst(local) && InOrder(local, incoming) && i < j < |incoming|
    requires CarryOne(BySideEffect, local, incoming[i]).status == NotCreated
    ensures CarryOne(BySideEffect, local, incoming[j]).status == NotCreated
  {
    hide Cmp;
    var a, b := Lookup(BySideEffect, local, incoming[i]), Lookup(BySideEffect, local, incoming[j]);
    assert Cmp(BySideEffect, incoming[i], incoming[j]) == -1;
    if b.Some? {
      CmpOrder(BySideEffect, incoming[j], b.value, incoming[i]);
      CmpOrder(BySideEffect, b.value, incoming[j], incoming[i]);
      CmpOrder(BySideEffect, incoming[i], incoming[j], incoming[j]);
      var y :| 0 <= y < |local| && local[y] == b.value;
      if a.Some? {
        var x :| 0 <= x < |local| && local[x] == a.value;
        CmpOrder(BySideEffect, a.value, incoming[i], b.value);
        CmpOrder(BySideEffect, a.value, b.value, b.value);
        CmpOrder(BySideEffect, b.value, incoming[i], incoming[i]);
        assert x < y;
      }
    }
  }

  /** So the merge of an in-order list keeps created tasks first. */
  lemma InOrderKeepsShape(local: seq<Task>, incoming: seq<Task>)
    requires Sorted(BySideEffect, local) && CreatedFirst(local) && InOrder(local, incoming)
    ensures CreatedFirst(CarryOver(BySideEffect, local, incoming))
  {
    hide Cmp, CarryOne, InOrder, Sorted;
    var r := CarryOver(BySideEffect, local, incoming);
    forall i, j | 0 <= i < j < |r| && r[i].status == NotCreated ensures r[j].status == NotCreated {
      CarryPair(local, incoming, i, j);
    }
  }

  lemma LedgerInOrder(l: Ledger, incoming: seq<Task>)
    requires Sound(l) && Allowed(l, ReplicateStep(incoming))
    ensures InOrder(l.tasks, incoming)
  {
  }

  lemma StepKeepsSound(l: Ledger, s: Step)
    requires Sound(l) && Allowed(l, s)
    ensures Sound(Take(l, s))
  {
    match s
    case CloseStep(_, _, _, _, _, _) => CloseKeepsSound(l, s);
    case RefreshStep =>
      var r := Reset(l.tasks);
      forall i, j | 0 <= i < j < |r| ensures Cmp(BySideEffect, r[i], r[j]) == -1 {
        assert Cmp(BySideEffect, l.tasks[i], l.tasks[j]) == -1;
      }
      forall t | t in r ensures !KeyLess(l.horizon, KeyOf(t)) && t.status == NotCreated {
        var i :| 0 <= i < |r| && r[i] == t;
        assert l.tasks[i] in l.tasks;
      }
    case ReplicateStep(_) => ReplicateKeepsSound(l, s);
  }

  /**
    Over every run of transactions, refreshes and in-order replication: the list keeps its shape,
    no key is handed out twice between resets, and a task has been handed out exactly when it is
    marked; a run that ends with a transaction leaves none waiting.
   */
  lemma {:induction false} EveryRunIsSound(l: Ledger, run: seq<Step>)
    requires Sound(l) && AllowedRun(l, run)
    ensures Sound(After(l, run))
    ensures run != [] && run[|run| - 1].CloseStep? ==>
      forall t :: t in After(l, run).tasks ==> After(l, run).log[KeyOf(t)] == 1
    decreases |run|
  {
    if run == [] {
    } else {
      StepKeepsSound(l, run[0]);
      EveryRunIsSound(Take(l, run[0]), run[1..]);
      if |run| == 1 && run[0].CloseStep? {
        CloseKeepsSound(l, run[0]);
      }
    }
  }

  /**
    Out of order the shape is kept exactly when every incoming task that ends up without status
    comes after every incoming task whose local copy is created.
   */
  lemma CarryKeepsShapeIff(local: seq<Task>, incoming: seq<Task>)
    ensures CreatedFirst(CarryOver(BySideEffect, local, incoming)) <==>
      forall i, j | 0 <= i < |incoming| && 0 <= j < |incoming| ::
        Waiting(local, incoming[i]) && !Waiting(local, incoming[j]) ==> j < i
  {
    var r := CarryOver(BySideEffect, local, incoming);
    assert forall i :: 0 <= i < |r| ==> (r[i].status == NotCreated <==> Waiting(local, incoming[i]));
  }

  /** The cluster holds no created task with this key. */
  ghost predicate Waiting(local: seq<Task>, t: Task) {
    forall s :: Lookup(BySideEffect, local, t) == Some(s) ==> s.status == NotCreated
  }
}
