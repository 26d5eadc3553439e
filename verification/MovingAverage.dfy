/** A moving average over a ring buffer. */
module MovingAverage {
  import opened Arithmetic

  type Time = int

  datatype Sample = Sample(value: int, at: Time)

  function Sum(q: seq<Sample>): int {
    if q == [] then 0 else q[0].value + Sum(q[1..])
  }

  lemma {:induction false} SumAppend(q: seq<Sample>, s: Sample)
    ensures Sum(q + [s]) == Sum(q) + s.value
  {
    if q == [] {
      assert [s][1..] == [];
    } else {
      SumAppend(q[1..], s);
      assert (q + [s])[1..] == q[1..] + [s];
    }
  }

  lemma SumFirst(q: seq<Sample>)
    requires q != []
    ensures Sum(q) == q[0].value + Sum(q[1..])
  {
  }

  function Mean(q: seq<Sample>): real {
    if q == [] then 0.0 else Sum(q) as real / |q| as real
  }

  /** The last `n` elements. */
  function Last(q: seq<Sample>, n: nat): seq<Sample> {
    if |q| <= n then q else q[|q| - n..]
  }

  predicate Young(s: Sample, now: Time, window: int) {
    now - s.at < window
  }

  /** From the first young sample on. */
  function DropOld(q: seq<Sample>, now: Time, window: int): seq<Sample> {
    if q == [] || Young(q[0], now, window) then q else DropOld(q[1..], now, window)
  }

  /** The samples in `n` slots from `head`, going round. */
  ghost function Segment(b: seq<Sample>, head: nat, n: nat): (r: seq<Sample>)
    requires head < |b| && n <= |b|
    ensures |r| == n && forall i :: 0 <= i < n ==> r[i] == b[Slot(head, i, |b|)]
  {
    seq(n, i requires 0 <= i < n => b[Slot(head, i, |b|)])
  }

  /** How many slots lie from `head` up to `tail`. */
  function Distance(head: nat, tail: nat, size: nat): nat
    requires head < size && tail < size
  {
    if head <= tail then tail - head else tail + size - head
  }

  class MovingWindowAvg {
    const window: int
    const buffer: array<Sample>
    var head: nat
    var tail: nat
    var sum: int
    var count: int

    ghost predicate Valid()
      reads this, buffer
    {
      && head < buffer.Length && tail < buffer.Length
      && count == |Live()| && sum == Sum(Live())
    }

    ghost function Live(): seq<Sample>
      requires head < buffer.Length && tail < buffer.Length
      reads this, buffer
    {
      Segment(buffer[..], head, Distance(head, tail, buffer.Length))
    }

    constructor (window: int, size: nat)
      requires size > 0
      ensures Valid() && fresh(buffer) && buffer.Length == size && this.window == window && Live() == []
    {
      this.window := window;
      buffer := new Sample[size](_ => Sample(0, 0));
      head, tail, sum, count := 0, 0, 0, 0;
    }

    method Record(value: int, now: Time)
      requires Valid()
      modifies this, buffer
      ensures Valid() && Live() == Last(old(Live()) + [Sample(value, now)], buffer.Length - 1)
    {
      hide Slot, Segment, Sum, Distance;
      ghost var before, longer := buffer[..], Live() + [Sample(value, now)];
      SumAppend(Live(), Sample(value, now));
      buffer[tail] := Sample(value, now);
      Recorded(before, head, tail, buffer[..], Sample(value, now));
      tail := Slot(tail, 1, buffer.Length);
      sum := sum + value;
      count := count + 1;
      if tail == head {
        SumFirst(longer);
        sum := sum - buffer[head].value;
        count := count - 1;
        head := Slot(head, 1, buffer.Length);
      }
    }

    method ExpireOldValues(now: Time)
      requires Valid()
      modifies this
      ensures Valid() && Live() == DropOld(old(Live()), now, window) && tail == old(tail)
    {
      while head != tail
        invariant Valid() && tail == old(tail)
        invariant DropOld(Live(), now, window) == DropOld(old(Live()), now, window)
        decreases |Live()|
      {
        FirstOut(buffer[..], head, Distance(head, tail, buffer.Length));
        if Young(buffer[head], now, window) {
          break;
        }
        sum := sum - buffer[head].value;
        count := count - 1;
        head := Slot(head, 1, buffer.Length);
      }
    }

    method Average(now: Time) returns (r: real)
      requires Valid()
      modifies this
      ensures Valid() && Live() == DropOld(old(Live()), now, window) && r == Mean(Live())
    {
      ExpireOldValues(now);
      if count == 0 {
        return 0.0;
      }
      r := sum as real / count as real;
    }
  }

  /** Writing at the tail adds a sample at the end; the tail may then have reached the head. */
  lemma Written(b: seq<Sample>, head: nat, tail: nat, b': seq<Sample>, s: Sample)
    requires head < |b| && tail < |b| && b' == b[tail := s]
    ensures var n := Distance(head, tail, |b|);
      n + 1 <= |b| && Segment(b', head, n + 1) == Segment(b, head, n) + [s]
  {
    hide Slot, Segment;
  }

  /** The queue after a write: one sample longer, or without its first if the buffer is full. */
  lemma Recorded(b: seq<Sample>, head: nat, tail: nat, b': seq<Sample>, s: Sample)
    requires head < |b| && tail < |b| && b' == b[tail := s]
    ensures var longer := Segment(b, head, Distance(head, tail, |b|)) + [s];
      var head', tail' := Slot(head, 1, |b|), Slot(tail, 1, |b|);
      if tail' == head then
        && |longer| == |b| && longer[0] == b'[head]
        && Segment(b', head', Distance(head', tail', |b|)) == longer[1..]
      else |longer| < |b| && Segment(b', head, Distance(head, tail', |b|)) == longer
  {
    hide Slot, Segment;
    Written(b, head, tail, b', s);
    var n := Distance(head, tail, |b|);
    FirstOut(b', head, n + 1);
  }

  /** Moving the head on drops the first sample. */
  lemma FirstOut(b: seq<Sample>, head: nat, n: nat)
    requires head < |b| && 0 < n <= |b|
    ensures Segment(b, head, n)[0] == b[head]
    ensures Segment(b, Slot(head, 1, |b|), n - 1) == Segment(b, head, n)[1..]
  {
    hide Slot, Segment;
  }

  // -------------------------------------------------------------- runs

  /** The young samples, wherever they are: what the average is meant to be of. */
  function YoungOnly(q: seq<Sample>, now: Time, window: int): seq<Sample> {
    if q == [] then []
    else (if Young(q[0], now, window) then [q[0]] else []) + YoungOnly(q[1..], now, window)
  }

  datatype Step = Put(sample: Sample) | Read(now: Time)

  /** The queue a meter stands for, everything ever recorded, and the latest time seen. */
  datatype Meter = Meter(live: seq<Sample>, history: seq<Sample>, clock: Time)

  function TimeOf(s: Step): Time {
    match s
    case Put(sample) => sample.at
    case Read(now) => now
  }

  /** What Record and Average do to the queue of a buffer of `size` slots. */
  function Take(m: Meter, s: Step, size: nat, window: int): Meter
    requires size > 0
  {
    match s
    case Put(sample) => Meter(Last(m.live + [sample], size - 1), m.history + [sample], sample.at)
    case Read(now) => Meter(DropOld(m.live, now, window), m.history, now)
  }

  function After(m: Meter, run: seq<Step>, size: nat, window: int): Meter
    requires size > 0
    decreases |run|
  {
    if run == [] then m else After(Take(m, run[0], size, window), run[1..], size, window)
  }

  /** The clock never goes back. */
  ghost predicate Forward(clock: Time, run: seq<Step>)
    decreases |run|
  {
    run == [] || (clock <= TimeOf(run[0]) && Forward(TimeOf(run[0]), run[1..]))
  }

  ghost predicate InOrder(q: seq<Sample>, clock: Time) {
    && (forall i, j :: 0 <= i < j < |q| ==> q[i].at <= q[j].at)
    && (forall i :: 0 <= i < |q| ==> q[i].at <= clock)
  }

  /** The queue is the end of the history, and what was dropped is old or beyond the buffer. */
  ghost predicate HoldsEnd(m: Meter, size: nat, window: int)
    requires size > 0
  {
    && InOrder(m.history, m.clock)
    && |m.live| <= |m.history| && |m.live| <= size - 1
    && var d := |m.history| - |m.live|;
       && m.live == m.history[d..]
       && forall i :: 0 <= i < d && |m.history| - (size - 1) <= i ==> !Young(m.history[i], m.clock, window)
  }

  lemma {:induction false} DropOldMeaning(q: seq<Sample>, now: Time, window: int)
    ensures var r := DropOld(q, now, window);
      && |r| <= |q| && r == q[|q| - |r|..]
      && (r != [] ==> Young(r[0], now, window))
      && forall i :: 0 <= i < |q| - |r| ==> !Young(q[i], now, window)
  {
    if q == [] || Young(q[0], now, window) {
    } else {
      DropOldMeaning(q[1..], now, window);
    }
  }

  lemma PutKeeps(m: Meter, sample: Sample, size: nat, window: int)
    requires size > 0 && HoldsEnd(m, size, window) && m.clock <= sample.at
    ensures HoldsEnd(Take(m, Put(sample), size, window), size, window)
  {
    var m', d := Take(m, Put(sample), size, window), |m.history| - |m.live|;
    assert m'.history[d..] == m.live + [sample];
    if |m.live| == size - 1 {
      assert m'.live == (m.live + [sample])[1..] == m'.history[d + 1..];
    }
    var d' := |m'.history| - |m'.live|;
    forall i | 0 <= i < d' && |m'.history| - (size - 1) <= i ensures !Young(m'.history[i], m'.clock, window) {
      assert m'.history[i] == m.history[i] && !Young(m.history[i], m.clock, window);
    }
  }

  lemma ReadKeeps(m: Meter, now: Time, size: nat, window: int)
    requires size > 0 && HoldsEnd(m, size, window) && m.clock <= now
    ensures HoldsEnd(Take(m, Read(now), size, window), size, window)
  {
    hide DropOld;
    var m', d := Take(m, Read(now), size, window), |m.history| - |m.live|;
    DropOldMeaning(m.live, now, window);
    var d' := |m'.history| - |m'.live|;
    assert m.history[d..][d' - d..] == m.history[d'..];
    forall i | 0 <= i < d' && |m'.history| - (size - 1) <= i ensures !Young(m'.history[i], now, window) {
      if i < d {
        assert !Young(m.history[i], m.clock, window);
      } else {
        assert m.history[i] == m.live[i - d];
      }
    }
  }

  lemma {:induction false} EveryRunKeeps(m: Meter, run: seq<Step>, size: nat, window: int)
    requires size > 0 && HoldsEnd(m, size, window) && Forward(m.clock, run)
    ensures HoldsEnd(After(m, run, size, window), size, window)
    ensures forall s :: s in run ==> TimeOf(s) <= After(m, run, size, window).clock
    ensures m.clock <= After(m, run, size, window).clock
    decreases |run|
  {
    if run == [] {
    } else {
      match run[0] {
        case Put(sample) => PutKeeps(m, sample, size, window);
        case Read(now) => ReadKeeps(m, now, size, window);
      }
      EveryRunKeeps(Take(m, run[0], size, window), run[1..], size, window);
    }
  }

  lemma {:induction false} YoungSuffix(q: seq<Sample>, d: nat, now: Time, window: int)
    requires d <= |q|
    requires forall i :: 0 <= i < |q| ==> (Young(q[i], now, window) <==> d <= i)
    ensures YoungOnly(q, now, window) == q[d..]
  {
    if q == [] {
    } else {
      YoungSuffix(q[1..], if d == 0 then 0 else d - 1, now, window);
      assert d == 0 ==> [q[0]] + q[1..] == q;
      assert d > 0 ==> q[1..][d - 1..] == q[d..];
    }
  }

  /**
    With a clock that never goes back, an average read after any run is that of exactly the
    samples younger than the window among the last `size - 1` recorded.
   */
  lemma AverageIsOfTheYoung(start: Time, run: seq<Step>, now: Time, size: nat, window: int)
    requires size > 0 && Forward(start, run)
    requires var m := After(Meter([], [], start), run, size, window); m.clock <= now
    ensures var m := After(Meter([], [], start), run, size, window);
      DropOld(m.live, now, window) == YoungOnly(Last(m.history, size - 1), now, window)
  {
    hide After, DropOld;
    var m := After(Meter([], [], start), run, size, window);
    EveryRunKeeps(Meter([], [], start), run, size, window);
    ReadKeeps(m, now, size, window);
    DropOldMeaning(m.live, now, window);
    EndIsYoung(Take(m, Read(now), size, window), size, window);
  }

  lemma DropTwice(q: seq<Sample>, a: nat, b: nat)
    requires a <= b <= |q|
    ensures q[a..][b - a..] == q[b..]
  {
  }

  lemma EndIsYoungAt(m: Meter, size: nat, window: int, at: nat)
    requires size > 0 && HoldsEnd(m, size, window) && (m.live != [] ==> Young(m.live[0], m.clock, window))
    requires |m.history| - (size - 1) <= at < |m.history|
    ensures Young(m.history[at], m.clock, window) <==> |m.history| - |m.live| <= at
  {
    var d := |m.history| - |m.live|;
    if d <= at {
      assert m.live[0] == m.history[d] && m.history[d].at <= m.history[at].at;
    }
  }

  /** Right after a read the queue is the young part of the last `size - 1` samples. */
  lemma EndIsYoung(m: Meter, size: nat, window: int)
    requires size > 0 && HoldsEnd(m, size, window) && (m.live != [] ==> Young(m.live[0], m.clock, window))
    ensures m.live == YoungOnly(Last(m.history, size - 1), m.clock, window)
  {
    hide YoungOnly, Young, InOrder;
    var q, d := Last(m.history, size - 1), |m.history| - |m.live|;
    var shift := |m.history| - |q|;
    assert q == m.history[shift..];
    DropTwice(m.history, shift, d);
    forall i | 0 <= i < |q| ensures Young(q[i], m.clock, window) <==> d - shift <= i {
      assert q[i] == m.history[shift + i];
      EndIsYoungAt(m, size, window, shift + i);
    }
    YoungSuffix(q, d - shift, m.clock, window);
  }
}
