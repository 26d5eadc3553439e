/**
  The visibility component asks for one more update of the visibility record each time it is
  changed. However often that happens in a transaction, one task is left and one goes out.
 */
module VisibilityTasks {
  import opened Wrappers
  import opened Versions
  import opened Tasks
  import opened TaskLists
  import opened Trees
  import opened Transactions

  /** The wire form of a task payload, which holds the transition count of the component. */
  datatype Codec = Codec(encode: int -> string, decode: string -> int)

  ghost predicate Faithful(codec: Codec) {
    forall n :: codec.decode(codec.encode(n)) == n
  }

  predicate Asks(codec: Codec, n: NewTask, count: int) {
    n.typ == VISIBILITY_TASK && n.dest == "" && n.scheduled == 0 && !n.pure && n.data.bytes == codec.encode(count)
  }

  /** What a component that was at `count` has queued since. */
  ghost predicate Queue(codec: Codec, count: int, news: seq<NewTask>) {
    forall i :: 0 <= i < |news| ==> Asks(codec, news[i], count + i + 1)
  }

  class Visibility {
    const codec: Codec
    var count: int
    var queued: seq<NewTask>

    constructor (codec: Codec)
      ensures this.codec == codec && count == 1 && |queued| == 1 && Queue(codec, 0, queued)
    {
      this.codec, count, queued := codec, 0, [];
      new;
      GenerateTask();
    }

    method GenerateTask()
      modifies this`count, this`queued
      ensures count == old(count) + 1 && |queued| == old(|queued|) + 1 && queued[..|queued| - 1] == old(queued)
      ensures forall from :: Queue(codec, from, old(queued)) && old(count) == from + |old(queued)| ==>
        Queue(codec, from, queued) && count == from + |queued|
    {
      count := count + 1;
      queued := queued + [NewTask(VISIBILITY_TASK, "", 0, Blob(0, codec.encode(count)), false)];
    }
  }

  // ---------------------------------------------------- one transaction

  /** A visibility task counts only while the component has not moved on. */
  ghost predicate Validates(validate: Validator, v: Option<Value>, codec: Codec, count: int) {
    forall spec: TaskSpec :: spec.typ == VISIBILITY_TASK ==>
      validate(v, spec) == if codec.decode(spec.bytes) == count then Valid else Invalid
  }

  predicate AsksUpTo(codec: Codec, t: Task, count: int) {
    t.typ == VISIBILITY_TASK && codec.decode(t.data.bytes) <= count
  }

  lemma {:induction false} PruneAll(tasks: seq<Task>, verdict: Task -> Verdict)
    requires forall t :: t in tasks ==> verdict(t) == Invalid
    ensures Prune(tasks, verdict) == []
  {
    if tasks == [] {
    } else {
      PruneAll(tasks[1..], verdict);
    }
  }

  lemma {:induction false} LastIsStamped(news: seq<NewTask>, verdict: NewTask -> Verdict, next: VT, offset: int)
    requires |news| > 0 && verdict(news[|news| - 1]) == Valid && !news[|news| - 1].pure
    requires forall i :: 0 <= i < |news| - 1 ==> verdict(news[i]) == Invalid
    ensures Stamped(false, news, verdict, next, offset) == [Stamp(news[|news| - 1], next, offset)]
  {
    if |news| == 1 {
      assert news[1..] == [];
    } else {
      LastIsStamped(news[1..], verdict, next, offset);
    }
  }

  /** The one task left in the list, and the one sent. */
  lemma OneTaskLeft(
    tasks: seq<Task>, verdict: Task -> Verdict, news: seq<NewTask>, newVerdict: NewTask -> Verdict,
    next: VT, offset: int)
    requires forall t :: t in tasks ==> verdict(t) == Invalid
    requires |news| > 0 && newVerdict(news[|news| - 1]) == Valid && !news[|news| - 1].pure
    requires forall i :: 0 <= i < |news| - 1 ==> newVerdict(news[i]) == Invalid
    ensures var all := Prune(tasks, verdict) + Stamped(false, news, newVerdict, next, offset);
      var last := Stamp(news[|news| - 1], next, offset);
      all == [last] && Emitted(all) == [last] && Marked(all) == [last.(status := Created)]
  {
    PruneAll(tasks, verdict);
    LastIsStamped(news, newVerdict, next, offset);
    var last := Stamp(news[|news| - 1], next, offset);
    assert [] + [last] == [last] && [last][..0] == [];
    NothingToScan();
  }

  lemma QueueVerdicts(v: Option<Value>, validate: Validator, codec: Codec, from: int, news: seq<NewTask>)
    requires Faithful(codec) && Queue(codec, from, news) && Validates(validate, v, codec, from + |news|)
    ensures forall i :: 0 <= i < |news| ==>
      OnNew(validate, v)(news[i]) == (if i == |news| - 1 then Valid else Invalid) && AttributesValid(news[i])
  {
    forall i | 0 <= i < |news|
      ensures OnNew(validate, v)(news[i]) == if i == |news| - 1 then Valid else Invalid
    {
      var n := news[i];
      assert Asks(codec, n, from + i + 1);
      assert TaskSpec(n.typ, n.dest, n.scheduled, n.data.bytes).typ == VISIBILITY_TASK;
    }
  }

  /**
    Closing a transaction in which the component changed: the older tasks and all but the last new
    one are dropped, the last one has the component's count, and it alone is handed out.
   */
  lemma OneVisibilityTask(item: Item, p: Path, c: Closing, offset: int, codec: Codec, from: int)
    requires UpdatedNow(item, c.next) && Faithful(codec)
    requires var news := NewsFor(item.value, c.news);
      |news| > 0 && Queue(codec, from, news) && Validates(c.validate, item.value, codec, from + |news|)
    requires forall t :: t in item.ser.value.attrs.sideEffects ==> AsksUpTo(codec, t, from)
    ensures var count := from + |NewsFor(item.value, c.news)|;
      var left := ClosedItem(item, c, offset).ser.value.attrs.sideEffects;
      var out := Emissions(item, p, c, offset);
      && |left| == 1 && left[0].status == Created && codec.decode(left[0].data.bytes) == count
      && |out| == 1 && out[0].category == Category.Visibility && codec.decode(out[0].task.data.bytes) == count
      && left[0] == out[0].task.(status := Created)
  {
    hide Prune, Stamped, Emitted, Marked;
    var news, attrs := NewsFor(item.value, c.news), item.ser.value.attrs;
    var old', new' := OnTask(c.validate, item.value), OnNew(c.validate, item.value);
    QueueVerdicts(item.value, c.validate, codec, from, news);
    forall t | t in attrs.sideEffects ensures old'(t) == Invalid {
      assert AsksUpTo(codec, t, from);
      assert TaskSpec(t.typ, t.dest, AsTime(t.scheduled), t.data.bytes).typ == VISIBILITY_TASK;
    }
    assert Asks(codec, news[|news| - 1], from + |news|);
    OneTaskLeft(attrs.sideEffects, old', news, new', c.next, offset);
  }

  // -------------------------------------------------------- whole runs

  /** The component across transactions, with the counts of the physical tasks sent so far. */
  datatype Record = Record(count: int, tasks: seq<Task>, sent: seq<int>)

  datatype Step = Update(news: seq<NewTask>, next: VT, offset: int) | Refresh

  function Judge(codec: Codec, count: int): Task -> Verdict {
    (t: Task) => if codec.decode(t.data.bytes) == count then Valid else Invalid
  }

  function JudgeNew(codec: Codec, count: int): NewTask -> Verdict {
    (n: NewTask) => if codec.decode(n.data.bytes) == count then Valid else Invalid
  }

  function Counts(codec: Codec, tasks: seq<Task>): seq<int> {
    seq(|tasks|, i requires 0 <= i < |tasks| => codec.decode(tasks[i].data.bytes))
  }

  /** A transaction that changed the component `|news|` times, or a reset of the physical status. */
  function Take(codec: Codec, r: Record, s: Step): Record {
    match s
    case Update(news, next, offset) =>
      var count := r.count + |news|;
      var tasks := Prune(r.tasks, Judge(codec, count)) + Stamped(false, news, JudgeNew(codec, count), next, offset);
      Record(count, Marked(tasks), r.sent + Counts(codec, Emitted(tasks)))
    case Refresh => r.(tasks := Reset(r.tasks))
  }

  function After(codec: Codec, r: Record, run: seq<Step>): Record
    decreases |run|
  {
    if run == [] then r else After(codec, Take(codec, r, run[0]), run[1..])
  }

  ghost predicate Runs(codec: Codec, r: Record, run: seq<Step>)
    decreases |run|
  {
    run == [] ||
    (&& (run[0].Update? ==> Queue(codec, r.count, run[0].news))
     && Runs(codec, Take(codec, r, run[0]), run[1..]))
  }

  /** At most one task, for the current count; once it is out, the last one sent is for that count. */
  ghost predicate Current(codec: Codec, r: Record) {
    && |r.tasks| <= 1
    && (r.tasks == [] ==> r.count == 0 && r.sent == [])
    && (r.tasks != [] ==>
          && codec.decode(r.tasks[0].data.bytes) == r.count
          && (r.tasks[0].status == Created ==> r.sent != [] && r.sent[|r.sent| - 1] == r.count))
    && (forall i :: 0 <= i < |r.sent| ==> r.sent[i] <= r.count)
    && (forall i, j :: 0 <= i < j < |r.sent| ==> r.sent[i] <= r.sent[j])
  }

  /** What the lists of a transaction come to. */
  lemma UpdateLists(codec: Codec, r: Record, s: Step)
    requires Faithful(codec) && s.Update? && Queue(codec, r.count, s.news) && Current(codec, r)
    ensures var r' := Take(codec, r, s);
      && r'.count == r.count + |s.news|
      && |r'.tasks| == (if s.news != [] then 1 else |r.tasks|)
      && (r'.tasks != [] ==> codec.decode(r'.tasks[0].data.bytes) == r'.count && r'.tasks[0].status == Created)
      && r'.sent == r.sent + (if Sends(r, s) then [r'.count] else [])
  {
    hide Prune, Stamped, Emitted, Marked;
    var count := r.count + |s.news|;
    var old', new' := Judge(codec, count), JudgeNew(codec, count);
    if s.news != [] {
      forall i | 0 <= i < |s.news| ensures new'(s.news[i]) == if i == |s.news| - 1 then Valid else Invalid {
        assert Asks(codec, s.news[i], r.count + i + 1);
      }
      assert Asks(codec, s.news[|s.news| - 1], count);
      OneTaskLeft(r.tasks, old', s.news, new', s.next, s.offset);
      assert Counts(codec, [Stamp(s.news[|s.news| - 1], s.next, s.offset)]) == [count];
    } else {
      UnchangedList(r.tasks, old', new', s.next, s.offset);
      assert Sends(r, s) ==> Counts(codec, r.tasks) == [count];
    }
  }

  /** The component changed, or its task has lost its physical one. */
  predicate Sends(r: Record, s: Step)
    requires s.Update?
  {
    s.news != [] || (r.tasks != [] && r.tasks[0].status == NotCreated)
  }

  lemma UpdateStaysCurrent(codec: Codec, r: Record, s: Step)
    requires Faithful(codec) && s.Update? && Queue(codec, r.count, s.news) && Current(codec, r)
    ensures Current(codec, Take(codec, r, s))
  {
    hide Take, Queue, Faithful;
    UpdateLists(codec, r, s);
  }

  lemma UnchangedList(tasks: seq<Task>, verdict: Task -> Verdict, newVerdict: NewTask -> Verdict, next: VT, offset: int)
    requires |tasks| <= 1 && (tasks != [] ==> verdict(tasks[0]) == Valid)
    ensures var all := Prune(tasks, verdict) + Stamped(false, [], newVerdict, next, offset);
      && all == tasks
      && (if tasks != [] && tasks[0].status == NotCreated
          then Emitted(all) == tasks && Marked(all) == [tasks[0].(status := Created)]
          else Emitted(all) == [] && Marked(all) == tasks)
  {
    if tasks != [] {
      assert tasks == [tasks[0]] && tasks[1..] == [] && tasks[..0] == [];
    }
  }

  lemma {:induction false} EveryRunStaysCurrent(codec: Codec, r: Record, run: seq<Step>)
    requires Faithful(codec) && Current(codec, r) && Runs(codec, r, run)
    ensures Current(codec, After(codec, r, run))
    decreases |run|
  {
    if run == [] {
    } else {
      if run[0].Update? {
        UpdateStaysCurrent(codec, r, run[0]);
      }
      EveryRunStaysCurrent(codec, Take(codec, r, run[0]), run[1..]);
    }
  }

  /** Whatever happened before, a transaction that changed the component leaves the newest count sent. */
  lemma NewestCountIsSent(codec: Codec, run: seq<Step>, last: Step)
    requires Faithful(codec) && last.Update? && last.news != []
    requires var start := Record(0, [], []);
      Runs(codec, start, run) && Queue(codec, After(codec, start, run).count, last.news)
    ensures var before := After(codec, Record(0, [], []), run);
      var after := Take(codec, before, last);
      && after.sent == before.sent + [after.count]
      && (forall i :: 0 <= i < |before.sent| ==> before.sent[i] < after.count)
      && |after.tasks| == 1
  {
    hide Take, After, Runs, Queue, Faithful;
    var start := Record(0, [], []);
    EveryRunStaysCurrent(codec, start, run);
    UpdateLists(codec, After(codec, start, run), last);
  }
}
