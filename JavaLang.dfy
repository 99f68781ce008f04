/** Java's fixed-width integers and the few java.lang operations the monitor relies on:
    two's-complement wrap-around of `int` and `long`, `/` truncating toward zero, and the
    decimal rendering that string concatenation applies to a `long`. */
module JavaLang {

  /** A reference that may be null. */
  datatype Option<T> = None | Some(value: T)

  const MIN_INT: int := -0x8000_0000
  const MAX_INT: int := 0x7fff_ffff
  const MIN_LONG: int := -0x8000_0000_0000_0000
  const MAX_LONG: int := 0x7fff_ffff_ffff_ffff

  /** Number of distinct `int` and `long` values. */
  const INT_RANGE: int := 0x1_0000_0000
  const LONG_RANGE: int := 0x1_0000_0000_0000_0000

  /** Values of Java's `int` and `long`. */
  type Int = x: int | MIN_INT <= x <= MAX_INT
  type Long = x: int | MIN_LONG <= x <= MAX_LONG

  /** The `int` that a mathematical integer wraps to: the one congruent to it modulo 2^32. */
  function WrapInt(x: int): (r: Int)
    ensures (x - r) % INT_RANGE == 0
    ensures MIN_INT <= x <= MAX_INT ==> r == x
  {
    (x - MIN_INT) % INT_RANGE + MIN_INT
  }

  /** The `long` that a mathematical integer wraps to: the one congruent to it modulo 2^64. */
  function WrapLong(x: int): (r: Long)
    ensures (x - r) % LONG_RANGE == 0
    ensures MIN_LONG <= x <= MAX_LONG ==> r == x
  {
    (x - MIN_LONG) % LONG_RANGE + MIN_LONG
  }

  /** `i++` on an `int`: one more, except that MAX_VALUE wraps to MIN_VALUE. */
  function IncInt(i: Int): (r: Int)
    ensures i < MAX_INT ==> r == i + 1
    ensures i == MAX_INT ==> r == MIN_INT
  {
    WrapInt(i + 1)
  }

  /** Two `long` values congruent modulo 2^64 are the same value. */
  lemma LongCongruentEqual(a: Long, b: Long)
    requires (a - b) % LONG_RANGE == 0
    ensures a == b
  {
  }

  /** Wrapping after every addition gives the same `long` as wrapping once at the end:
      the running total of a `long` accumulator is the exact total wrapped. */
  lemma {:induction false} WrapLongAdd(a: int, b: int)
    ensures WrapLong(WrapLong(a) + b) == WrapLong(a + b)
  {
    var w := WrapLong(a);
    var q := (a - w) / LONG_RANGE;
    assert a - w == q * LONG_RANGE;
    var u := WrapLong(w + b);
    var v := WrapLong(a + b);
    assert (w + b - u) % LONG_RANGE == 0;
    assert (a + b - v) % LONG_RANGE == 0;
    assert u - v == (a + b - v) - (w + b - u) - q * LONG_RANGE;
    ModMultiples(a + b - v, w + b - u, q);
    LongCongruentEqual(u, v);
  }

  /** A sum of multiples of 2^64 is a multiple of 2^64. */
  lemma ModMultiples(x: int, y: int, q: int)
    requires x % LONG_RANGE == 0 && y % LONG_RANGE == 0
    ensures (x - y - q * LONG_RANGE) % LONG_RANGE == 0
  {
    var qx, qy := x / LONG_RANGE, y / LONG_RANGE;
    assert x == qx * LONG_RANGE;
    assert y == qy * LONG_RANGE;
    assert x - y - q * LONG_RANGE == (qx - qy - q) * LONG_RANGE;
  }

  /** Java's `a / b` for a positive divisor: the quotient truncated toward zero (Dafny's `/`
      rounds toward negative infinity instead when `a` is negative). */
  function JavaDiv(a: int, b: int): (q: int)
    requires b > 0
    ensures a >= 0 ==> 0 <= q && q * b <= a < q * b + b
    ensures a < 0 ==> q <= 0 && q * b - b < a <= q * b
    ensures a >= 0 ==> q <= a
    ensures a < 0 ==> a <= q
  {
    if a >= 0 then
      DivBounds(a, b);
      a / b
    else
      DivBounds(-a, b);
      assert -((-a) / b) * b == -(((-a) / b) * b);
      -((-a) / b)
  }

  /** Dafny's `/` on a natural number: the largest multiple of `b` not above `n`. */
  lemma DivBounds(n: nat, b: int)
    requires b > 0
    ensures 0 <= (n / b) * b <= n < (n / b) * b + b
    ensures 0 <= n / b <= n
  {
    var q, r := n / b, n % b;
    assert n == q * b + r && 0 <= r < b;
    MulAwayFromZero(q, b);
    assert q >= 0;
    MulAwayFromZero(b, q);
  }

  /** A positive multiple of `n` is at least `n`. */
  lemma {:induction false} MulAtLeast(d: int, n: nat)
    requires d >= 1
    ensures d * n >= n
    decreases d
  {
    if d > 1 {
      MulAtLeast(d - 1, n);
      assert d * n == (d - 1) * n + n;
    }
  }

  /** A nonzero multiple of `n` is at least `n` away from zero. */
  lemma MulAwayFromZero(d: int, n: int)
    requires n >= 0
    ensures d >= 1 ==> d * n >= n
    ensures d <= -1 ==> d * n <= -n
  {
    if d >= 1 {
      MulAtLeast(d, n);
    } else if d <= -1 {
      MulAtLeast(-d, n);
      assert (-d) * n == -(d * n);
    }
  }

  /** Quotient and remainder are unique. */
  lemma DivModUnique(a: int, n: int, q: int, r: int)
    requires n > 0 && a == q * n + r && 0 <= r < n
    ensures a / n == q && a % n == r
  {
    var q', r' := a / n, a % n;
    assert a == q' * n + r';
    var d := q - q';
    assert d * n == r' - r by {
      assert q * n - q' * n == (q - q') * n;
    }
    MulAwayFromZero(d, n);
  }

  /** Java's `a % b` for a positive divisor: the remainder takes the sign of `a`. */
  function JavaRem(a: int, b: int): (r: int)
    requires b > 0
    ensures a >= 0 ==> 0 <= r < b
    ensures a < 0 ==> -b < r <= 0
    ensures a == JavaDiv(a, b) * b + r
  {
    a - JavaDiv(a, b) * b
  }

  /** The character of a decimal digit. */
  function DigitChar(d: int): char
    requires 0 <= d < 10
  {
    ('0' as int + d) as char
  }

  /** Decimal digits of a natural number, most significant first, without leading zeros. */
  function Digits(n: nat): (s: string)
    ensures |s| > 0
    ensures forall i :: 0 <= i < |s| ==> '0' <= s[i] <= '9'
    decreases n
  {
    if n < 10 then [DigitChar(n)] else Digits(n / 10) + [DigitChar(n % 10)]
  }

  /** `Long.toString`, as `x + " ..."` renders a `long`. */
  function LongToString(x: int): string
  {
    if x < 0 then "-" + Digits(-x) else Digits(x)
  }

  /** The number a string of decimal digits denotes. */
  function DigitsValue(s: string): int
  {
    if s == [] then 0 else DigitsValue(s[..|s| - 1]) * 10 + (s[|s| - 1] as int - '0' as int)
  }

  /** Reads back a rendering made by LongToString. */
  function ParseLong(s: string): int
  {
    if |s| > 0 && s[0] == '-' then -DigitsValue(s[1..]) else DigitsValue(s)
  }

  lemma {:induction false} DigitsRoundTrip(n: nat)
    ensures DigitsValue(Digits(n)) == n
    decreases n
  {
    if n >= 10 {
      DigitsRoundTrip(n / 10);
      var s := Digits(n);
      assert s[..|s| - 1] == Digits(n / 10);
    }
  }

  /** Rendering a `long` loses nothing: the decimal text reads back as the same number. */
  lemma LongToStringRoundTrip(x: int)
    ensures ParseLong(LongToString(x)) == x
  {
    if x < 0 {
      DigitsRoundTrip(-x);
      assert LongToString(x)[1..] == Digits(-x);
    } else {
      DigitsRoundTrip(x);
    }
  }
}
