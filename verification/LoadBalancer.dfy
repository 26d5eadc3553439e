/** Polls per partition of one task queue: pollers are sent where the fewest polls are. */
module LoadBalancer {
  import opened Arithmetic

  /** Grown with zeros or cut off at the end. */
  function Resize(counts: seq<int>, n: nat): (r: seq<int>)
    ensures |r| == n
    ensures forall i :: 0 <= i < n ==> r[i] == if i < |counts| then counts[i] else 0
  {
    if n <= |counts| then counts[..n] else counts + seq(n - |counts|, _ => 0)
  }

  predicate Fewest(counts: seq<int>, p: nat) {
    p < |counts| && forall i :: 0 <= i < |counts| ==> counts[p] <= counts[i]
  }

  /** The counts, and the partitions of the poll tokens handed out and not yet released. */
  datatype State = State(counts: seq<int>, tokens: multiset<nat>)

  datatype Step = Pick(count: nat, partition: nat) | Force(count: nat, partition: nat) | Release(partition: nat)

  function Max(a: nat, b: nat): nat {
    if a < b then b else a
  }

  function Bump(counts: seq<int>, p: nat): seq<int>
    requires p < |counts|
  {
    counts[p := counts[p] + 1]
  }

  ghost predicate Allowed(s: State, step: Step) {
    match step
    case Pick(count, p) => count > 0 && Fewest(Resize(s.counts, count), p)
    case Force(_, _) => true
    case Release(p) => p in s.tokens
  }

  ghost function Take(s: State, step: Step): State
    requires Allowed(s, step)
  {
    match step
    case Pick(count, p) => State(Bump(Resize(s.counts, count), p), s.tokens + multiset{p})
    case Force(count, p) => State(Bump(Resize(s.counts, Max(count, p + 1)), p), s.tokens + multiset{p})
    case Release(p) =>
      State(if p < |s.counts| && s.counts[p] > 0 then s.counts[p := s.counts[p] - 1] else s.counts,
            s.tokens - multiset{p})
  }

  /** No count is negative or above the number of tokens out for its partition. */
  ghost predicate Bounded(s: State) {
    forall i :: 0 <= i < |s.counts| ==> 0 <= s.counts[i] <= s.tokens[i]
  }

  /** Each of `n` partitions counts its tokens, and there are no others. */
  ghost predicate Exact(s: State, n: nat) {
    && |s.counts| == n
    && (forall i :: 0 <= i < n ==> s.counts[i] == s.tokens[i])
    && (forall t :: t in s.tokens ==> t < n)
  }

  class TaskQueueLoadBalancer {
    var counts: seq<int>
    ghost var tokens: multiset<nat>

    ghost function View(): State
      reads this
    {
      State(counts, tokens)
    }

    constructor ()
      ensures View() == State([], multiset{})
    {
      counts, tokens := [], multiset{};
    }

    method EnsurePartitionCount(n: nat)
      modifies this`counts
      ensures counts == Resize(old(counts), n)
    {
      if |counts| == n {
        return;
      }
      if |counts| < n {
        for i := |counts| to n
          invariant |counts| == i
          invariant forall j :: 0 <= j < i ==> counts[j] == if j < |old(counts)| then old(counts)[j] else 0
        {
          counts := counts + [0];
        }
        assert counts == Resize(old(counts), n);
      } else {
        counts := counts[..n];
      }
    }

    /** `start` is the random partition the scan begins with; the scan stops early at a zero. */
    method PickWithFewestPolls(n: nat, start: nat) returns (p: nat)
      requires |counts| == n && start < n && forall i :: 0 <= i < n ==> counts[i] >= 0
      ensures Fewest(counts, p)
    {
      hide Slot;
      p := start;
      var least := counts[p];
      var i := 1;
      while i < n && least > 0
        invariant 1 <= i <= n && p < n && least == counts[p]
        invariant forall j :: 0 <= j < i ==> least <= counts[Slot(start, j, n)]
      {
        var current := Slot(start, i, n);
        if counts[current] < least {
          p, least := current, counts[current];
        }
        i := i + 1;
      }
      if least > 0 {
        forall q | 0 <= q < n ensures least <= counts[q] {
          var j := if q >= start then q - start else q + n - start;
          assert Slot(start, j, n) == q;
        }
      }
    }

    method PickReadPartition(n: nat, start: nat) returns (p: nat)
      requires start < n && Bounded(View())
      modifies this
      ensures Allowed(old(View()), Pick(n, p)) && View() == Take(old(View()), Pick(n, p))
    {
      EnsurePartitionCount(n);
      p := PickWithFewestPolls(n, start);
      counts := counts[p := counts[p] + 1];
      tokens := tokens + multiset{p};
    }

    method ForceReadPartition(n: nat, p: nat)
      modifies this
      ensures View() == Take(old(View()), Force(n, p))
    {
      EnsurePartitionCount(Max(n, p + 1));
      counts := counts[p := counts[p] + 1];
      tokens := tokens + multiset{p};
    }

    method ReleaseToken(p: nat)
      requires p in tokens
      modifies this
      ensures View() == Take(old(View()), Release(p))
    {
      if |counts| > p && counts[p] > 0 {
        counts := counts[p := counts[p] - 1];
      }
      tokens := tokens - multiset{p};
    }
  }

  // -------------------------------------------------------------- runs

  ghost predicate AllowedRun(s: State, run: seq<Step>)
    decreases |run|
  {
    run == [] || (Allowed(s, run[0]) && AllowedRun(Take(s, run[0]), run[1..]))
  }

  ghost function After(s: State, run: seq<Step>): State
    requires AllowedRun(s, run)
    decreases |run|
  {
    if run == [] then s else After(Take(s, run[0]), run[1..])
  }

  lemma {:induction false} EveryRunIsBounded(s: State, run: seq<Step>)
    requires Bounded(s) && AllowedRun(s, run)
    ensures Bounded(After(s, run))
    decreases |run|
  {
    if run == [] {
    } else {
      EveryRunIsBounded(Take(s, run[0]), run[1..]);
    }
  }

  /** The step asks for `n` partitions. */
  predicate AsksFor(step: Step, n: nat) {
    match step
    case Pick(count, _) => count == n
    case Force(count, p) => count == n && p < n
    case Release(_) => true
  }

  /** While the partition count does not change the counts are the tokens. */
  lemma {:induction false} FixedCountIsExact(s: State, n: nat, run: seq<Step>)
    requires (Exact(s, n) || s == State([], multiset{})) && AllowedRun(s, run)
    requires forall step :: step in run ==> AsksFor(step, n)
    ensures Exact(After(s, run), n) || After(s, run) == State([], multiset{})
    decreases |run|
  {
    if run == [] {
    } else {
      var s' := Take(s, run[0]);
      assert AsksFor(run[0], n);
      if Exact(s, n) {
        StaysExact(s, n, run[0]);
      } else {
        FirstIsExact(n, run[0]);
      }
      FixedCountIsExact(s', n, run[1..]);
    }
  }

  lemma StaysExact(s: State, n: nat, step: Step)
    requires Exact(s, n) && Allowed(s, step) && AsksFor(step, n)
    ensures Exact(Take(s, step), n)
  {
    assert Resize(s.counts, n) == s.counts;
  }

  lemma FirstIsExact(n: nat, step: Step)
    requires Allowed(State([], multiset{}), step) && AsksFor(step, n)
    ensures Exact(Take(State([], multiset{}), step), n)
  {
  }

  /** The counts are the tokens, whatever the number of partitions. */
  ghost predicate Precise(s: State) {
    Exact(s, |s.counts|)
  }

  /** The step cuts off no partition that has polls. */
  predicate Lossless(s: State, step: Step) {
    match step
    case Pick(count, _) => forall i :: count <= i < |s.counts| ==> s.counts[i] == 0
    case Force(count, p) => forall i :: Max(count, p + 1) <= i < |s.counts| ==> s.counts[i] == 0
    case Release(_) => true
  }

  /** A step keeps the counts precise if and only if it cuts off no polls. */
  lemma StepIsPreciseIff(s: State, step: Step)
    requires Precise(s) && Allowed(s, step)
    ensures Precise(Take(s, step)) <==> Lossless(s, step)
  {
    var s' := Take(s, step);
    match step
    case Release(p) =>
      assert |s'.counts| == |s.counts|;
    case Pick(count, p) => ResizeIsPreciseIff(s, s', count, p);
    case Force(count, p) => ResizeIsPreciseIff(s, s', Max(count, p + 1), p);
  }

  lemma ResizeIsPreciseIff(s: State, s': State, n: nat, p: nat)
    requires Precise(s) && p < n && s' == State(Bump(Resize(s.counts, n), p), s.tokens + multiset{p})
    ensures Precise(s') <==> forall i :: n <= i < |s.counts| ==> s.counts[i] == 0
  {
    if i :| n <= i < |s.counts| && s.counts[i] != 0 {
      assert i in s'.tokens;
    } else {
      forall t | t in s'.tokens ensures t < n {
        assert t != p ==> t in s.tokens && t < |s.counts|;
      }
    }
  }

  ghost predicate AlwaysPrecise(s: State, run: seq<Step>)
    requires AllowedRun(s, run)
    decreases |run|
  {
    Precise(s) && (run == [] || AlwaysPrecise(Take(s, run[0]), run[1..]))
  }

  ghost predicate LosslessRun(s: State, run: seq<Step>)
    requires AllowedRun(s, run)
    decreases |run|
  {
    run == [] || (Lossless(s, run[0]) && LosslessRun(Take(s, run[0]), run[1..]))
  }

  /** With any resizing, the counts are the tokens all along a run if and only if no step of it cuts off polls. */
  lemma {:induction false} RunIsPreciseIff(s: State, run: seq<Step>)
    requires Precise(s) && AllowedRun(s, run)
    ensures AlwaysPrecise(s, run) <==> LosslessRun(s, run)
    decreases |run|
  {
    hide Precise, Lossless, Take, Allowed;
    if run == [] {
    } else {
      StepIsPreciseIff(s, run[0]);
      if Precise(Take(s, run[0])) {
        RunIsPreciseIff(Take(s, run[0]), run[1..]);
      }
    }
  }

  /** One such run: the queue is cut down and grown again while a poll is out. */
  lemma ResizingForgets()
    ensures var run := [Pick(1, 0), Pick(2, 1), Pick(1, 0), Force(2, 0)];
      && AllowedRun(State([], multiset{}), run)
      && After(State([], multiset{}), run).counts == [3, 0]
      && After(State([], multiset{}), run).tokens == multiset{0, 0, 0, 1}
  {
    var s0 := State([], multiset{});
    var run := [Pick(1, 0), Pick(2, 1), Pick(1, 0), Force(2, 0)];
    var s1 := Take(s0, run[0]);
    assert s1.counts == [1];
    var s2 := Take(s1, run[1]);
    assert s2.counts == [1, 1];
    var s3 := Take(s2, run[2]);
    assert s3.counts == [2];
    var s4 := Take(s3, run[3]);
    assert s4.counts == [3, 0];
    assert run[1..] == [Pick(2, 1), Pick(1, 0), Force(2, 0)];
    assert run[1..][1..] == [Pick(1, 0), Force(2, 0)];
    assert run[1..][1..][1..] == [Force(2, 0)];
    assert run[1..][1..][1..][1..] == [];
  }

  // -------------------------------------------------------- fair shares

  function Sum(counts: seq<int>): int {
    if counts == [] then 0 else counts[0] + Sum(counts[1..])
  }

  lemma {:induction false} SumBump(counts: seq<int>, p: nat)
    requires p < |counts|
    ensures Sum(Bump(counts, p)) == Sum(counts) + 1
  {
    if p == 0 {
      assert Bump(counts, p)[1..] == counts[1..];
    } else {
      SumBump(counts[1..], p - 1);
      assert Bump(counts, p)[1..] == Bump(counts[1..], p - 1);
    }
  }

  lemma {:induction false} SumZero(counts: seq<int>)
    requires forall i :: 0 <= i < |counts| ==> counts[i] == 0
    ensures Sum(counts) == 0
  {
    if counts == [] {
    } else {
      SumZero(counts[1..]);
    }
  }

  ghost predicate Even(counts: seq<int>) {
    forall i, j :: 0 <= i < |counts| && 0 <= j < |counts| ==> counts[i] <= counts[j] + 1
  }

  /** Pollers that come and stay are spread evenly over the partitions. */
  lemma {:induction false} PicksAreEven(n: nat, run: seq<Step>)
    requires AllowedRun(State([], multiset{}), run) && run != []
    requires forall step :: step in run ==> step.Pick? && step.count == n
    ensures var counts := After(State([], multiset{}), run).counts;
      |counts| == n && Even(counts) && Sum(counts) == |run|
  {
    var s := Take(State([], multiset{}), run[0]);
    var zeros := Resize([], n);
    assert run[0] in run;
    SumZero(zeros);
    SumBump(zeros, run[0].partition);
    MorePicks(s, n, run[1..]);
  }

  lemma {:induction false} MorePicks(s: State, n: nat, run: seq<Step>)
    requires |s.counts| == n && Even(s.counts) && AllowedRun(s, run)
    requires forall step :: step in run ==> step.Pick? && step.count == n
    ensures var counts := After(s, run).counts;
      |counts| == n && Even(counts) && Sum(counts) == Sum(s.counts) + |run|
    decreases |run|
  {
    if run == [] {
    } else {
      assert run[0] in run;
      assert Resize(s.counts, n) == s.counts;
      SumBump(s.counts, run[0].partition);
      MorePicks(Take(s, run[0]), n, run[1..]);
    }
  }
}
