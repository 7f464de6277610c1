/**
 * The integer implementations of the `Number` trait (`i32` and `i64`) and the
 * default `abs` of the trait's later version.  The linear-algebra layer is
 * modelled over `int`; this module supplies the operations the trait adds on
 * top of ring arithmetic: the sign tests, `abs`, `pow`, the truncating `sqrt`
 * and the truncating division `/` of Rust's integer types.
 */
module Number {

  /** The two integer instantiations of the trait. */
  datatype Width = I32 | I64

  function MinValue(w: Width): int {
    match w
    case I32 => -0x8000_0000
    case I64 => -0x8000_0000_0000_0000
  }

  function MaxValue(w: Width): int {
    match w
    case I32 => 0x7fff_ffff
    case I64 => 0x7fff_ffff_ffff_ffff
  }

  predicate InRange(w: Width, x: int) {
    MinValue(w) <= x <= MaxValue(w)
  }

  /** `zero()` and `one()`. */
  const Zero: int := 0
  const One: int := 1

  predicate IsZero(x: int) { x == Zero }
  predicate IsPositive(x: int) { x > Zero }
  predicate IsNegative(x: int) { x < Zero }


  /**
   * The integer `abs` (the standard library's): the one value the source
   * cannot negate, `MIN`, overflows, so it is excluded.
   */
  function Abs(w: Width, x: int): (r: int)
    requires InRange(w, x) && x != MinValue(w)
    ensures InRange(w, r) && r >= 0
    ensures r == x || r == -x
  {
    if x < 0 then -x else x
  }

  /** The default `abs` of the trait: `self` when above zero, `-self` otherwise. */
  function DefaultAbs(x: int): (r: int)
    ensures r >= 0
    ensures r == x || r == -x
    ensures r == 0 <==> x == 0
  {
    if x > Zero then x else -x
  }

  /**
   * Every value is exactly one of zero, positive and negative, and the
   * default `abs` negates exactly the negative ones: it keeps zero and
   * positive values and turns a negative value positive.
   */
  lemma AbsBySign(x: int)
    ensures IsZero(x) || IsPositive(x) || IsNegative(x)
    ensures !(IsZero(x) && IsPositive(x)) && !(IsZero(x) && IsNegative(x)) && !(IsPositive(x) && IsNegative(x))
    ensures IsNegative(x) <==> IsPositive(DefaultAbs(x)) && DefaultAbs(x) == -x
    ensures !IsNegative(x) ==> DefaultAbs(x) == x
  {
  }

  /** The default `abs` ignores the sign, and agrees with the integer `abs`. */
  lemma DefaultAbsEven(x: int)
    ensures DefaultAbs(-x) == DefaultAbs(x)
  {
  }

  lemma DefaultAbsAgrees(w: Width, x: int)
    requires InRange(w, x) && x != MinValue(w)
    ensures DefaultAbs(x) == Abs(w, x)
  {
  }

  /** `x` multiplied by itself `n` times (`pow` with an unsigned exponent). */
  function Power(x: int, n: nat): int {
    if n == 0 then 1 else x * Power(x, n - 1)
  }

  lemma {:induction false} PowerAdd(x: int, m: nat, n: nat)
    ensures Power(x, m + n) == Power(x, m) * Power(x, n)
  {
    if m > 0 {
      PowerAdd(x, m - 1, n);
      assert Power(x, m + n) == x * Power(x, m - 1 + n);
    }
  }

  /**
   * `pow`: a non-negative exponent is repeated multiplication, and the result
   * must fit the width (the source panics on overflow otherwise).  A negative
   * exponent goes through the floating-point `powi` and a saturating cast back:
   * `1 / x^n` is infinite for `x == 0` (cast to `MAX`), exactly `1` or `-1`
   * for `x == 1` or `x == -1`, and strictly between -1 and 1 otherwise, which
   * the cast truncates to `0`.
   */
  function Pow(w: Width, x: int, e: int): (r: int)
    requires InRange(w, x) && InRange(I32, e)
    requires e >= 0 ==> InRange(w, Power(x, e))
    ensures e >= 0 ==> r == Power(x, e)
    ensures e == 0 ==> r == One
    ensures e < 0 ==> (r == 0 <==> x != 0 && x != 1 && x != -1)
    ensures e < 0 && x == 0 ==> r == MaxValue(w)
    ensures e < 0 && x == 1 ==> r == 1
    ensures e < 0 && x == -1 ==> r == (if e % 2 == 0 then 1 else -1)
    ensures InRange(w, r)
  {
    if e >= 0 then Power(x, e)
    else if x == 0 then MaxValue(w)
    else if x == 1 then 1
    else if x == -1 then (if e % 2 == 0 then 1 else -1)
    else 0
  }

  /** Squaring through `pow(2)`, as the distance computation does. */
  lemma PowTwo(w: Width, x: int)
    requires InRange(w, x) && InRange(w, Power(x, 2))
    ensures Pow(w, x, 2) == x * x
  {
    assert Power(x, 1) == x;
    assert Power(x, 2) == x * Power(x, 1);
  }

  /** A pair of exponents adds up: `x.pow(m + n) == x.pow(m) * x.pow(n)`. */
  lemma PowAdd(w: Width, x: int, m: nat, n: nat)
    requires InRange(w, x) && InRange(I32, m + n)
    requires InRange(w, Power(x, m)) && InRange(w, Power(x, n)) && InRange(w, Power(x, m + n))
    ensures Pow(w, x, m + n) == Pow(w, x, m) * Pow(w, x, n)
  {
    PowerAdd(x, m, n);
  }

  /** The floor of the square root of a natural number. */
  function FloorSqrt(n: nat): (r: nat)
    ensures r * r <= n < (r + 1) * (r + 1)
  {
    if n < 4 then (if n == 0 then 0 else 1)
    else
      var h := 2 * FloorSqrt(n / 4);
      FloorSqrtStep(n, h / 2);
      if (h + 1) * (h + 1) <= n then h + 1 else h
  }

  lemma FloorSqrtStep(n: nat, q: nat)
    requires q * q <= n / 4 < (q + 1) * (q + 1)
    ensures (2 * q) * (2 * q) <= n < (2 * q + 2) * (2 * q + 2)
  {
    assert 4 * (n / 4) <= n < 4 * (n / 4) + 4;
    assert (2 * q) * (2 * q) == 4 * (q * q);
    assert (2 * q + 2) * (2 * q + 2) == 4 * ((q + 1) * (q + 1));
  }

  /**
   * The integer `sqrt`: the square root taken in floating point and truncated
   * back, which is the floor of the square root on non-negative inputs; the
   * square root of a negative value is NaN, which the cast turns into `0`.
   */
  function Sqrt(x: int): (r: int)
    ensures x < 0 ==> r == 0
    ensures x >= 0 ==> 0 <= r && r * r <= x < (r + 1) * (r + 1)
  {
    if x < 0 then 0 else FloorSqrt(x)
  }

  /** The truncated square root is determined by its bounds. */
  lemma SqrtUnique(x: int, r: int)
    requires 0 <= r && r * r <= x < (r + 1) * (r + 1)
    ensures Sqrt(x) == r
  {
    var s := Sqrt(x);
    if s < r {
      SquareMonotone(s + 1, r);
    } else if s > r {
      SquareMonotone(r + 1, s);
    }
  }

  lemma SquareMonotone(a: nat, b: nat)
    requires a <= b
    ensures a * a <= b * b
  {
    assert a * a <= a * b <= b * b;
  }

  /** The truncated square root is zero exactly on `0` among non-negative values. */
  lemma SqrtZero(x: int)
    requires x >= 0
    ensures Sqrt(x) == 0 <==> x == 0
  {
    if x > 0 {
      SqrtUnique(x, Sqrt(x));
    }
  }

  /**
   * Rust's integer `/`: the quotient is truncated toward zero, so the
   * remainder is smaller than the divisor in magnitude and takes the sign of
   * the dividend (Dafny's own `/` rounds so that the remainder is never
   * negative, and differs for negative dividends).
   */
  function TruncDiv(a: int, b: int): (q: int)
    requires b != 0
    ensures DefaultAbs(a - q * b) < DefaultAbs(b)
    ensures a >= 0 ==> a - q * b >= 0
    ensures a <= 0 ==> a - q * b <= 0
  {
    if a >= 0 then (if b > 0 then a / b else -(a / -b))
    else (if b > 0 then -((-a) / b) else (-a) / (-b))
  }

  /** Dividing by one or minus one loses nothing; dividing one by a larger divisor gives zero. */
  lemma TruncDivUnit(a: int, b: int)
    requires b == 1 || b == -1
    ensures TruncDiv(a, b) == a * b
  {
  }

  lemma TruncDivSmall(a: int, b: int)
    requires b != 0 && DefaultAbs(a) < DefaultAbs(b)
    ensures TruncDiv(a, b) == 0
  {
    if a >= 0 {
      if b > 0 { DivSmall(a, b); } else { DivSmall(a, -b); }
    } else {
      if b > 0 { DivSmall(-a, b); } else { DivSmall(-a, -b); }
    }
  }

  lemma DivSmall(n: nat, d: nat)
    requires n < d
    ensures n / d == 0
  {
  }
}
