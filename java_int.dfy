/**
 * Java's 32-bit `int` semantics written out over Dafny's unbounded integers:
 * wrap-around of `+` and `*`, the saturating `(int)` narrowing of a `double`,
 * `Math.abs`, and the truncating `/` and `%`.
 */
module JavaInt {

  const MIN_VALUE: int := -0x8000_0000
  const MAX_VALUE: int := 0x7fff_ffff
  const TWO_32: int := 0x1_0000_0000

  type Int32 = x: int | MIN_VALUE <= x <= MAX_VALUE

  /** Two's-complement wrap-around of an exact result to 32 bits. */
  function Wrap(x: int): (r: Int32)
    ensures (x - r) % TWO_32 == 0
    ensures MIN_VALUE <= x <= MAX_VALUE ==> r == x
  {
    var m := x % TWO_32;
    if m <= MAX_VALUE then m else m - TWO_32
  }

  /** Two 32-bit values congruent modulo 2^32 are equal. */
  lemma WrapUnique(x: int, r: Int32)
    requires (x - r) % TWO_32 == 0
    ensures Wrap(x) == r
  {
    var w := Wrap(x);
    var q1 := (x - w) / TWO_32;
    var q2 := (x - r) / TWO_32;
    assert x - w == TWO_32 * q1;
    assert x - r == TWO_32 * q2;
    assert r - w == TWO_32 * (q1 - q2);
    assert -TWO_32 < r - w < TWO_32;
  }

  /** Wrapping an intermediate result does not change the wrapped sum. */
  lemma WrapAdd(a: int, b: int)
    ensures Wrap(Wrap(a) + b) == Wrap(a + b)
  {
    var w := Wrap(a);
    var q := (a - w) / TWO_32;
    assert a - w == TWO_32 * q;
    var v := Wrap(w + b);
    var q2 := (w + b - v) / TWO_32;
    assert w + b - v == TWO_32 * q2;
    assert (a + b) - v == TWO_32 * (q + q2);
    WrapUnique(a + b, v);
  }

  /** An accumulator that wraps after every addition holds the wrapped exact sum. */
  lemma WrapAccumulate(h: int, e: int, p: int)
    requires h == Wrap(e)
    ensures Wrap(h + Wrap(p)) == Wrap(e + p)
  {
    WrapAdd(e, Wrap(p));
    WrapAdd(p, e);
  }

  /** Multiplying out a value written as a remainder plus a multiple of 2^32. */
  lemma MulShift(w: int, q: int, b: int)
    ensures (w + TWO_32 * q) * b == w * b + TWO_32 * (q * b)
  {
  }

  /** Wrapping an intermediate result does not change the wrapped product. */
  lemma WrapMul(a: int, b: int)
    ensures Wrap(Wrap(a) * b) == Wrap(a * b)
  {
    var w := Wrap(a);
    var q := (a - w) / TWO_32;
    assert a == w + TWO_32 * q;
    MulShift(w, q, b);
    var wb, qb := w * b, q * b;
    assert a * b == wb + TWO_32 * qb;
    var v := Wrap(wb);
    var q2 := (wb - v) / TWO_32;
    assert wb - v == TWO_32 * q2;
    assert a * b - v == TWO_32 * (qb + q2);
    WrapUnique(a * b, v);
  }

  /**
   * The `(int)` narrowing of a `double` that holds the exact integer `x`:
   * values outside the `int` range saturate at its bounds.
   */
  function Saturate(x: int): (r: Int32)
    ensures MIN_VALUE <= x <= MAX_VALUE ==> r == x
    ensures x < MIN_VALUE ==> r == MIN_VALUE
    ensures x > MAX_VALUE ==> r == MAX_VALUE
  {
    if x < MIN_VALUE then MIN_VALUE else if x > MAX_VALUE then MAX_VALUE else x
  }

  /** `Math.abs(int)`: `a < 0 ? -a : a`, where `-a` wraps. */
  function Abs(x: Int32): (r: Int32)
    ensures x != MIN_VALUE ==> r >= 0 && (r == x || r == -x)
    ensures x == MIN_VALUE ==> r == MIN_VALUE
  {
    if x < 0 then Wrap(-(x as int)) else x
  }

  /** Java's `a / b` for a positive divisor: truncating toward zero. */
  function Div(a: int, b: int): (r: int)
    requires b > 0
    ensures a >= 0 ==> r * b <= a < (r + 1) * b
    ensures a < 0 ==> (r - 1) * b < a <= r * b
  {
    if a >= 0 then a / b else -((-a) / b)
  }

  /**
   * Java's `a % b` for a positive divisor: truncating, so the remainder takes
   * the sign of `a`, and `(a / b) * b + a % b == a`.
   */
  function Rem(a: int, b: int): (r: int)
    requires b > 0
    ensures a >= 0 ==> 0 <= r < b
    ensures a < 0 ==> -b < r <= 0
    ensures Div(a, b) * b + r == a
  {
    if a >= 0 then a % b else -((-a) % b)
  }

  /** `Integer.MIN_VALUE % 48` and `% 20` are negative. */
  lemma RemOfMinValue()
    ensures Rem(MIN_VALUE, 48) == -32
    ensures Rem(MIN_VALUE, 20) == -8
  {
  }
}
