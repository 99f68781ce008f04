/** SimpleCircularBuffer: a fixed number of slots written round-robin at `index mod length`,
    each slot empty (Java's null) until first written, with a copy-out snapshot. */
module CircularBuffers {
  import opened JavaLang

  /** The slots of an `n`-slot buffer after the samples `h` were added, in order, to an
      empty one: sample number `i` goes to slot `i % n`. */
  function Replay<T>(h: seq<T>, n: nat): (slots: seq<Option<T>>)
    requires n > 0 || h == []
    ensures |slots| == n
  {
    if h == [] then Empty(n)
    else Replay(h[..|h| - 1], n)[(|h| - 1) % n := Some(h[|h| - 1])]
  }

  /** `k` slots that were never written. */
  function Empty<T>(k: nat): seq<Option<T>>
  {
    seq(k, _ => None)
  }

  /** Slots holding the samples `xs` in order. */
  function Filled<T>(xs: seq<T>): seq<Option<T>>
  {
    seq(|xs|, i requires 0 <= i < |xs| => Some(xs[i]))
  }

  /** Until the buffer fills, sample `i` sits in slot `i` and the slots after the last
      sample are still empty. */
  lemma {:induction false} ReplayUnderfull<T>(h: seq<T>, n: nat)
    requires |h| <= n
    ensures Replay(h, n) == Filled(h) + Empty(n - |h|)
  {
    if h != [] {
      var init := h[..|h| - 1];
      ReplayUnderfull(init, n);
      DivModUnique(|h| - 1, n, 0, |h| - 1);
      var lhs, rhs := Replay(h, n), Filled(h) + Empty(n - |h|);
      forall i | 0 <= i < n
        ensures lhs[i] == rhs[i]
      {
        if i < |h| - 1 {
          assert lhs[i] == Replay(init, n)[i] == Filled(init)[i];
        }
      }
    }
  }

  /** Two numbers less than `n` apart leave different remainders modulo `n`. */
  lemma ModDistinct(a: nat, b: nat, n: nat)
    requires a < b < a + n
    ensures a % n != b % n
  {
    var qa, qb := a / n, b / n;
    assert a == qa * n + a % n;
    assert b == qb * n + b % n;
    if a % n == b % n {
      var d := qb - qa;
      assert b - a == d * n by {
        assert qb * n - qa * n == (qb - qa) * n;
      }
      MulAwayFromZero(d, n);
    }
  }

  /** Each of the last `n` samples sits in slot `k % n`, for `k` its position in the
      order of adds; once the buffer is full, older samples are gone. */
  lemma {:induction false} ReplayRecent<T>(h: seq<T>, n: nat, k: nat)
    requires n > 0
    requires |h| - n <= k < |h|
    ensures Replay(h, n)[k % n] == Some(h[k])
  {
    var last := |h| - 1;
    if k < last {
      var init := h[..last];
      ReplayRecent(init, n, k);
      ModDistinct(k, last, n);
    }
  }

  /** A full buffer holds exactly the last `n` samples, rotated so that the oldest of them
      sits in slot `(|h| - n) % n`. */
  lemma ReplayRotated<T>(h: seq<T>, n: nat)
    requires 0 < n <= |h|
    ensures
      var s := |h| - n;
      var t := h[s..];
      var r := s % n;
      Replay(h, n) == Filled(t[n - r..] + t[..n - r])
  {
    var s := |h| - n;
    var t := h[s..];
    var r := s % n;
    var lhs, rhs := Replay(h, n), Filled(t[n - r..] + t[..n - r]);
    forall j | 0 <= j < n
      ensures lhs[j] == rhs[j]
    {
      RotatedSlot(h, n, j);
    }
  }

  /** Slot `j` of a full buffer, in terms of the last `n` samples `t`. */
  lemma RotatedSlot<T>(h: seq<T>, n: nat, j: nat)
    requires 0 < n <= |h| && j < n
    ensures
      var s := |h| - n;
      var t := h[s..];
      var r := s % n;
      Replay(h, n)[j] == Some(if j >= r then t[j - r] else t[n - r + j])
  {
    var k := RotatedIndex(|h| - n, n, j);
    ReplayRecent(h, n, k);
  }

  /** The add whose sample ends up in slot `j` once `s + n` samples were added: one of the
      last `n`, `s - s % n + j` when that is not before `s`, else the one `n` later. */
  lemma RotatedIndex(s: nat, n: nat, j: nat) returns (k: nat)
    requires j < n
    ensures s <= k < s + n && k % n == j
    ensures k == if j >= s % n then s - s % n + j else s - s % n + n + j
  {
    var r, q := s % n, s / n;
    assert s == q * n + r;
    var k0 := s - r + j;
    DivModUnique(k0, n, q, j);
    if j >= r {
      k := k0;
    } else {
      k := k0 + n;
      ModShift(k, n);
    }
  }

  /** Once full, a buffer's slots depend only on the last `n` samples and on how many
      samples were added, modulo `n`. */
  lemma ReplayDependsOnLastN<T>(h1: seq<T>, h2: seq<T>, n: nat)
    requires 0 < n <= |h1| && n <= |h2|
    requires h1[|h1| - n..] == h2[|h2| - n..]
    requires |h1| % n == |h2| % n
    ensures Replay(h1, n) == Replay(h2, n)
  {
    var t := h1[|h1| - n..];
    ModShift(|h1|, n);
    ModShift(|h2|, n);
    var r := (|h1| - n) % n;
    assert r == (|h2| - n) % n;
    calc {
      Replay(h1, n);
      { ReplayRotated(h1, n); }
      Filled(t[n - r..] + t[..n - r]);
      { ReplayRotated(h2, n); }
      Replay(h2, n);
    }
  }

  /** Removing `n` does not change a remainder modulo `n`. */
  lemma ModShift(m: nat, n: nat)
    requires 0 < n <= m
    ensures (m - n) % n == m % n
  {
    var q, r := (m - n) / n, (m - n) % n;
    assert m - n == q * n + r;
    assert m == (q + 1) * n + r;
    DivModUnique(m, n, q + 1, r);
  }

  /** SimpleCircularBuffer<T>. `index` counts the adds so far; `history` is the sequence of
      every sample ever added, which the slots are a function of. */
  class SimpleCircularBuffer<T> {
    const buffer: array<Option<T>>
    var index: nat
    ghost var history: seq<T>

    ghost predicate Valid()
      reads this, buffer
    {
      && index == |history|
      && (buffer.Length > 0 || history == [])
      && buffer[..] == Replay(history, buffer.Length)
    }

    /** A buffer of `bufferSize` empty slots. */
    constructor (bufferSize: nat)
      ensures Valid() && fresh(buffer)
      ensures buffer.Length == bufferSize
      ensures history == [] && index == 0
      ensures buffer[..] == Empty(bufferSize)
    {
      buffer := new Option<T>[bufferSize](_ => None);
      index := 0;
      history := [];
    }

    /** Writes `sample` to slot `index % length` and counts it; a buffer of no slots cannot
        take a sample (the remainder by zero throws). */
    method Add(sample: T)
      requires Valid() && buffer.Length > 0
      modifies this, buffer
      ensures Valid()
      ensures history == old(history) + [sample]
      ensures index == old(index) + 1
      ensures buffer[..] == old(buffer[..])[old(index) % buffer.Length := Some(sample)]
    {
      buffer[index % buffer.Length] := Some(sample);
      index := index + 1;
      history := history + [sample];
      assert history[..|history| - 1] == old(history);
    }

    /** A new array holding a copy of every slot. */
    method GetSnapshot() returns (snapshot: array<Option<T>>)
      requires Valid()
      ensures fresh(snapshot)
      ensures snapshot[..] == buffer[..] == Replay(history, buffer.Length)
    {
      snapshot := new Option<T>[buffer.Length](_ => None);
      forall i | 0 <= i < buffer.Length {
        snapshot[i] := buffer[i];
      }
    }

    /** The capacity given at construction. */
    method Size() returns (n: nat)
      ensures n == buffer.Length
    {
      n := buffer.Length;
    }
  }

  /** A snapshot is a copy: adding to the buffer afterwards leaves it as it was. */
  method SnapshotSurvivesAdd<T>(b: SimpleCircularBuffer<T>, sample: T) returns (snapshot: array<Option<T>>)
    requires b.Valid() && b.buffer.Length > 0
    modifies b, b.buffer
    ensures b.Valid() && b.history == old(b.history) + [sample]
    ensures snapshot[..] == Replay(old(b.history), b.buffer.Length)
  {
    snapshot := b.GetSnapshot();
    b.Add(sample);
  }
}
