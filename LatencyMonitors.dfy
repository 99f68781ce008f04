/** SimpleLatencyMonitor: a circular buffer of nanosecond durations and a time unit. The
    average sums the filled slots of a snapshot in a `long`, divides by the number of
    slots (the capacity, not the number of samples) and converts the quotient to the unit;
    both divisions truncate toward zero. */
module LatencyMonitors {
  import opened JavaLang
  import opened TimeUnits
  import opened CircularBuffers

  /** Exact sum of the filled slots; an empty slot adds nothing. */
  function Total(slots: seq<Option<Long>>): int
  {
    if slots == [] then 0
    else Total(slots[..|slots| - 1]) + (match slots[|slots| - 1] case Some(d) => d case None => 0)
  }

  /** Exact sum of a sequence of samples. */
  function Sum(xs: seq<Long>): int
  {
    if xs == [] then 0 else Sum(xs[..|xs| - 1]) + xs[|xs| - 1]
  }

  /** What getAverage returns for a snapshot: 0 for no slots; otherwise the `long` total
      (wrapped to 64 bits) divided by the number of slots, then converted to `unit`. */
  function Average(snapshot: seq<Option<Long>>, unit: TimeUnit): (avg: Long)
    ensures |snapshot| == 0 ==> avg == 0
    ensures |snapshot| > 0 && unit == NANOSECONDS ==>
      avg == JavaDiv(WrapLong(Total(snapshot)), |snapshot|)
  {
    if |snapshot| == 0 then 0
    else Convert(JavaDiv(WrapLong(Total(snapshot)), |snapshot|), unit)
  }

  lemma {:induction false} TotalAppend(a: seq<Option<Long>>, b: seq<Option<Long>>)
    ensures Total(a + b) == Total(a) + Total(b)
    decreases |b|
  {
    if b != [] {
      assert (a + b)[..|a + b| - 1] == a + b[..|b| - 1];
      assert (a + b)[|a + b| - 1] == b[|b| - 1];
      TotalAppend(a, b[..|b| - 1]);
    } else {
      assert a + b == a;
    }
  }

  lemma {:induction false} SumAppend(a: seq<Long>, b: seq<Long>)
    ensures Sum(a + b) == Sum(a) + Sum(b)
    decreases |b|
  {
    if b != [] {
      assert (a + b)[..|a + b| - 1] == a + b[..|b| - 1];
      assert (a + b)[|a + b| - 1] == b[|b| - 1];
      SumAppend(a, b[..|b| - 1]);
    } else {
      assert a + b == a;
    }
  }

  /** Slots never written contribute nothing to the total. */
  lemma {:induction false} TotalOfEmpty(k: nat)
    ensures Total(Empty<Long>(k)) == 0
  {
    if k > 0 {
      assert Empty<Long>(k)[..k - 1] == Empty<Long>(k - 1);
      TotalOfEmpty(k - 1);
    }
  }

  /** The total of filled slots is the sum of the samples in them. */
  lemma {:induction false} TotalOfFilled(xs: seq<Long>)
    ensures Total(Filled(xs)) == Sum(xs)
  {
    if xs != [] {
      assert Filled(xs)[..|xs| - 1] == Filled(xs[..|xs| - 1]);
      TotalOfFilled(xs[..|xs| - 1]);
    }
  }

  /** The total of a prefix one slot longer. */
  lemma TotalStep(slots: seq<Option<Long>>, i: nat)
    requires i < |slots|
    ensures Total(slots[..i + 1]) == Total(slots[..i]) + (if slots[i].Some? then slots[i].value else 0)
  {
    assert slots[..i + 1][..i] == slots[..i];
  }

  /** One turn of getAverage's loop: adding the next filled slot to the `long` running total
      (and skipping an empty one) keeps it equal to the wrapped total of the prefix read. */
  lemma AccumulateStep(slots: seq<Option<Long>>, i: nat, total: Long)
    requires i < |slots| && total == WrapLong(Total(slots[..i]))
    ensures WrapLong(Total(slots[..i + 1])) ==
      if slots[i].Some? then WrapLong(total + slots[i].value) else total
  {
    TotalStep(slots, i);
    if slots[i].Some? {
      WrapLongAdd(Total(slots[..i]), slots[i].value);
    }
  }

  /** Emptying a slot is the same as subtracting its sample: null slots are skipped. */
  lemma TotalSkipsEmptySlot(slots: seq<Option<Long>>, i: nat, d: Long)
    requires i < |slots| && slots[i] == Some(d)
    ensures Total(slots[i := None]) == Total(slots) - d
  {
    var a, b := slots[..i], slots[i + 1..];
    assert slots == a + [Some(d)] + b;
    assert slots[i := None] == a + [None] + b;
    TotalAppend(a + [Some(d)], b);
    TotalAppend(a, [Some(d)]);
    TotalAppend(a + [None], b);
    TotalAppend(a, [None]);
  }

  /** A monitor no sample has reached averages to 0, whatever its capacity. */
  lemma NoSamplesAverageZero(n: nat, unit: TimeUnit)
    ensures Average(Replay([], n), unit) == 0
  {
    TotalOfEmpty(n);
  }

  /** Until the buffer fills, the sum of the samples so far is still divided by the full
      capacity `n`, so an under-filled monitor under-reports. */
  lemma AverageUnderfull(h: seq<Long>, n: nat, unit: TimeUnit)
    requires 0 < n && |h| <= n
    ensures Average(Replay(h, n), unit) == Convert(JavaDiv(WrapLong(Sum(h)), n), unit)
  {
    ReplayUnderfull(h, n);
    TotalAppend(Filled(h), Empty(n - |h|));
    TotalOfFilled(h);
    TotalOfEmpty(n - |h|);
  }

  /** Once the buffer is full, the average is that of the last `n` samples only. */
  lemma AverageFull(h: seq<Long>, n: nat, unit: TimeUnit)
    requires 0 < n <= |h|
    ensures Average(Replay(h, n), unit) == Convert(JavaDiv(WrapLong(Sum(h[|h| - n..])), n), unit)
  {
    var t := h[|h| - n..];
    var r := (|h| - n) % n;
    ReplayRotated(h, n);
    TotalOfFilled(t[n - r..] + t[..n - r]);
    SumAppend(t[n - r..], t[..n - r]);
    SumAppend(t[..n - r], t[n - r..]);
    assert t[..n - r] + t[n - r..] == t;
  }

  /** Two histories that end in the same `n` samples give the same average, however many
      samples came before and in whatever slots they now sit. */
  lemma AverageDependsOnLastN(h1: seq<Long>, h2: seq<Long>, n: nat, unit: TimeUnit)
    requires 0 < n <= |h1| && n <= |h2|
    requires h1[|h1| - n..] == h2[|h2| - n..]
    ensures Average(Replay(h1, n), unit) == Average(Replay(h2, n), unit)
  {
    AverageFull(h1, n, unit);
    AverageFull(h2, n, unit);
  }

  /** The arithmetic the average rests on: the same quotient bounds for any total whose
      samples lie in `[0, bound]` and whose exact sum fits in a `long`. */
  lemma {:induction false} SumBounds(xs: seq<Long>, bound: int)
    requires forall i :: 0 <= i < |xs| ==> 0 <= xs[i] <= bound
    ensures 0 <= Sum(xs) <= |xs| * bound
  {
    if xs != [] {
      SumBounds(xs[..|xs| - 1], bound);
      assert |xs| * bound == (|xs| - 1) * bound + bound;
    }
  }

  /** An average never exceeds the largest sample: with every sample in `[0, bound]` and
      `n * bound` within `long` range, the average lies in `[0, bound]`. */
  lemma AverageWithinSampleRange(h: seq<Long>, n: nat, bound: int, unit: TimeUnit)
    requires 0 < n && 0 <= bound
    requires forall i :: 0 <= i < |h| ==> 0 <= h[i] <= bound
    requires n * bound <= MAX_LONG
    ensures 0 <= Average(Replay(h, n), unit) <= bound
  {
    var counted := if |h| <= n then h else h[|h| - n..];
    assert forall i :: 0 <= i < |counted| ==> 0 <= counted[i] <= bound;
    SumBounds(counted, bound);
    MulMonotone(|counted|, n, bound);
    var total := Sum(counted);
    assert 0 <= total <= n * bound;
    QuotientWithinBound(total, n, bound, unit);
    if |h| <= n {
      AverageUnderfull(h, n, unit);
    } else {
      AverageFull(h, n, unit);
    }
  }

  /** A total of at most `n * bound` (within `long` range), divided by `n` and converted,
      is at most `bound`. */
  lemma QuotientWithinBound(total: int, n: nat, bound: int, unit: TimeUnit)
    requires 0 < n && 0 <= total <= n * bound <= MAX_LONG
    ensures 0 <= Convert(JavaDiv(WrapLong(total), n), unit) <= bound
  {
    var q := JavaDiv(total, n);
    MulCancel(q, bound, n);
  }

  lemma MulMonotone(a: nat, b: nat, c: int)
    requires a <= b && c >= 0
    ensures a * c <= b * c
  {
    MulAwayFromZero(b - a, c);
    assert b * c - a * c == (b - a) * c;
  }

  lemma MulCancel(q: int, bound: int, n: nat)
    requires n > 0 && q * n <= n * bound
    ensures q <= bound
  {
    MulAwayFromZero(q - bound, n);
    assert q * n - n * bound == (q - bound) * n;
  }

  /** `k` equal samples sum to `k` times the sample. */
  lemma {:induction false} SumOfEqual(k: nat, v: Long)
    ensures Sum(seq(k, _ => v)) == k * v
  {
    if k > 0 {
      assert seq(k, _ => v)[..k - 1] == seq(k - 1, _ => v);
      SumOfEqual(k - 1, v);
    }
  }

  /** Ten one-millisecond samples in a capacity-10 monitor average to 1 ms. */
  lemma TenMillisecondSamples()
    ensures Average(Replay(seq(10, _ => 1000_000), 10), MILLISECONDS) == 1
  {
    var h: seq<Long> := seq(10, _ => 1000_000);
    AverageFull(h, 10, MILLISECONDS);
    assert h[0..] == h;
    SumOfEqual(10, 1000_000);
  }

  /** SimpleLatencyMonitor. Its buffer is never replaced; `timeUnit` is fixed. */
  class SimpleLatencyMonitor {
    const samples: SimpleCircularBuffer<Long>
    const timeUnit: TimeUnit

    /** The objects the monitor owns; its own fields never change. */
    ghost function Repr(): set<object>
    {
      {samples, samples.buffer}
    }

    ghost predicate Valid()
      reads samples, samples.buffer
    {
      samples.Valid()
    }

    /** A monitor with `sampleSize` empty slots reporting in `unit`. */
    constructor (sampleSize: nat, unit: TimeUnit)
      ensures Valid() && fresh(Repr())
      ensures samples.buffer.Length == sampleSize && samples.history == []
      ensures timeUnit == unit
    {
      samples := new SimpleCircularBuffer<Long>(sampleSize);
      timeUnit := unit;
    }

    /** Hands the duration to the buffer unchanged. */
    method AddSample(duration: Long)
      requires Valid() && samples.buffer.Length > 0
      modifies samples, samples.buffer
      ensures Valid()
      ensures samples.history == old(samples.history) + [duration]
    {
      samples.Add(duration);
    }

    /** The average of the current snapshot in this monitor's unit; reads only. */
    method GetAverage() returns (avg: Long)
      requires Valid()
      ensures avg == Average(Replay(samples.history, samples.buffer.Length), timeUnit)
    {
      var snapshot := samples.GetSnapshot();
      if snapshot.Length == 0 {
        return 0;
      }
      ghost var slots := snapshot[..];
      var totalDuration: Long := 0;
      for i := 0 to snapshot.Length
        invariant snapshot[..] == slots
        invariant totalDuration == WrapLong(Total(slots[..i]))
      {
        AccumulateStep(slots, i, totalDuration);
        if snapshot[i].Some? {
          totalDuration := WrapLong(totalDuration + snapshot[i].value);
        }
      }
      assert slots == slots[..snapshot.Length];
      avg := Convert(JavaDiv(totalDuration, snapshot.Length), timeUnit);
    }
  }
}
