/**
 * The configuration helpers of the API: the four output qualities and their
 * resolutions, the inclusive axis-range test, and the quadratic formula used
 * for eigenvalues.  The two copies of these helpers in the repository (the
 * `src` tree and the `rust` tree) agree on everything modelled here.
 */
module Util {

  import opened Wrappers
  import opened Number
  import Points

  /** `in_axis_range`: the value, converted to a float, lies between the two bounds, both included. */
  predicate InAxisRange(val: int, range: (real, real)) {
    range.0 <= val as real && val as real <= range.1
  }

  /**
   * Both ends of an axis belong to it, nothing outside does, and an empty
   * range (start above end) contains nothing.
   */
  lemma InAxisRangeInclusive(val: int, start: int, end: int)
    requires start <= end
    ensures InAxisRange(start, (start as real, end as real))
    ensures InAxisRange(end, (start as real, end as real))
    ensures InAxisRange(val, (start as real, end as real)) <==> start <= val <= end
  {
  }

  lemma InAxisRangeEmpty(val: int, range: (real, real))
    requires range.1 < range.0
    ensures !InAxisRange(val, range)
  {
  }

  /** The output qualities. */
  datatype Quality = Low | Medium | High | Ultra

  /** `Quality::new`: the quality whose resolution is `x` by `y`, if there is one. */
  function QualityNew(x: nat, y: nat): (r: Option<Quality>)
    ensures r.Some? <==> (x, y) in {(854, 480), (1280, 720), (1920, 1080), (3840, 2160)}
    ensures r.Some? ==> Resolution(r.value) == Points.Point([x, y])
  {
    match (x, y)
    case (854, 480) => Some(Low)
    case (1280, 720) => Some(Medium)
    case (1920, 1080) => Some(High)
    case (3840, 2160) => Some(Ultra)
    case _ => None
  }

  /** `resolution`: the quality's width and height as a two-dimensional point. */
  function Resolution(q: Quality): (r: Points.Point)
    ensures Points.Dimensions(r) == 2
    ensures r.values[0] > 0 && r.values[1] > 0
    ensures r.values[0] * 9 == r.values[1] * 16 || q == Low
  {
    match q
    case Low => Points.Point([854, 480])
    case Medium => Points.Point([1280, 720])
    case High => Points.Point([1920, 1080])
    case Ultra => Points.Point([3840, 2160])
  }

  /** Round trip: every quality is recovered from its own resolution. */
  lemma QualityRoundTrip(q: Quality)
    ensures QualityNew(Resolution(q).values[0], Resolution(q).values[1]) == Some(q)
  {
  }

  /** Exactly four pairs are accepted, and distinct qualities have distinct resolutions. */
  lemma QualityNewAcceptsExactly(x: nat, y: nat)
    ensures QualityNew(x, y).Some? <==> exists q: Quality :: Resolution(q) == Points.Point([x, y])
  {
    if QualityNew(x, y).Some? {
      assert Resolution(QualityNew(x, y).value) == Points.Point([x, y]);
    } else if exists q: Quality :: Resolution(q) == Points.Point([x, y]) {
      var q: Quality :| Resolution(q) == Points.Point([x, y]);
      QualityRoundTrip(q);
      assert false;
    }
  }

  lemma ResolutionInjective(p: Quality, q: Quality)
    requires Resolution(p) == Resolution(q)
    ensures p == q
  {
    QualityRoundTrip(p);
    QualityRoundTrip(q);
  }

  /** `to_string`: a lower-case name for each quality. */
  function Name(q: Quality): (r: string)
    ensures |r| > 0
    ensures forall i :: 0 <= i < |r| ==> 'a' <= r[i] <= 'z'
  {
    match q
    case Low => "low"
    case Medium => "medium"
    case High => "high"
    case Ultra => "ultra"
  }

  /** The four names are distinct. */
  lemma NamesDistinct(p: Quality, q: Quality)
    requires p != q
    ensures Name(p) != Name(q)
  {
    assert Name(Low)[0] == 'l' && Name(Medium)[0] == 'm';
    assert Name(High)[0] == 'h' && Name(Ultra)[0] == 'u';
  }

  /**
   * `quadsolve`: the two roots `(-b + sqrt(delta)) / 2a` and
   * `(-b - sqrt(delta)) / 2a` of `a x^2 + b x + c`, with `delta = b^2 - 4ac`,
   * computed with the integer `sqrt` and the integer `/` (a zero leading
   * coefficient would divide by zero).
   */
  function Quadsolve(a: int, b: int, c: int): (r: (int, int))
    requires a != 0
  {
    var delta := b * b - a * 4 * c;
    (TruncDiv(-b + Sqrt(delta), a * 2), TruncDiv(-b - Sqrt(delta), a * 2))
  }

  /**
   * When the discriminant is a perfect square `s * s` and both numerators
   * `-b + s` and `-b - s` are exact multiples `2a * k0` and `2a * k1`, the
   * two results are those exact roots: their sum is `-b / a`, their product
   * `c / a`, and each one is a zero of the polynomial.
   */
  lemma QuadsolveVieta(a: int, b: int, c: int, k0: int, k1: int)
    requires a != 0
    requires b * b - a * 4 * c >= 0
    requires Sqrt(b * b - a * 4 * c) * Sqrt(b * b - a * 4 * c) == b * b - a * 4 * c
    requires (a * 2) * k0 == -b + Sqrt(b * b - a * 4 * c)
    requires (a * 2) * k1 == -b - Sqrt(b * b - a * 4 * c)
    ensures Quadsolve(a, b, c) == (k0, k1)
    ensures a * (k0 + k1) == -b
    ensures a * (k0 * k1) == c
    ensures a * k0 * k0 + b * k0 + c == 0
    ensures a * k1 * k1 + b * k1 + c == 0
  {
    var s := Sqrt(b * b - a * 4 * c);
    ExactTruncDiv(-b + s, a * 2, k0);
    ExactTruncDiv(-b - s, a * 2, k1);
    VietaSum(a, b, s, k0, k1);
    VietaProduct(a, b, c, s, k0, k1);
    RootOfProduct(a, b, c, k0, k1);
    RootOfProduct(a, b, c, k1, k0);
  }

  lemma VietaSum(a: int, b: int, s: int, k0: int, k1: int)
    requires (a * 2) * k0 == -b + s && (a * 2) * k1 == -b - s
    ensures a * (k0 + k1) == -b
  {
    assert (a * 2) * k0 == 2 * (a * k0);
    assert (a * 2) * k1 == 2 * (a * k1);
  }

  lemma VietaProduct(a: int, b: int, c: int, s: int, k0: int, k1: int)
    requires a != 0
    requires s * s == b * b - a * 4 * c
    requires (a * 2) * k0 == -b + s && (a * 2) * k1 == -b - s
    ensures a * (k0 * k1) == c
  {
    var u, v := (a * 2) * k0, (a * 2) * k1;
    assert u * v == b * b - s * s;
    assert u * v == (a * 4) * (a * (k0 * k1));
    CancelFactor(a * 4, a * (k0 * k1), c);
  }

  /** An exact division is undone by multiplying back. */
  lemma ExactTruncDiv(n: int, d: int, k: int)
    requires d != 0 && d * k == n
    ensures TruncDiv(n, d) == k
  {
    var q := TruncDiv(n, d);
    MultipleDifference(n, d, k, q);
    if k != q {
      NonZeroMultiple(k - q, d);
    }
  }

  lemma MultipleDifference(n: int, d: int, k: int, q: int)
    requires d * k == n
    ensures n - q * d == (k - q) * d
  {
  }

  lemma NonZeroMultiple(x: int, d: int)
    requires x != 0 && d != 0
    ensures DefaultAbs(x * d) >= DefaultAbs(d)
  {
    if x > 0 && d > 0 {
      assert x * d >= 1 * d;
    } else if x > 0 {
      assert x * d <= 1 * d;
    } else if d > 0 {
      assert x * d <= -1 * d;
    } else {
      assert x * d >= -1 * d;
    }
  }

  lemma CancelFactor(f: int, x: int, y: int)
    requires f != 0 && f * x == f * y
    ensures x == y
  {
    assert f * (x - y) == 0;
  }

  /** A root `r0` whose partner `r1` satisfies Vieta's relations is a zero of the polynomial. */
  lemma RootOfProduct(a: int, b: int, c: int, r0: int, r1: int)
    requires a * (r0 + r1) == -b && a * (r0 * r1) == c
    ensures a * r0 * r0 + b * r0 + c == 0
  {
    assert b * r0 == -(a * r0 * r0) - a * r0 * r1;
  }

  /**
   * With a leading coefficient of one, a discriminant that is a perfect
   * square always gives two exact roots: the square root has the parity of
   * `b`, so both numerators are even.
   */
  lemma MonicExact(b: int, c: int, s: int)
    requires s * s == b * b - 4 * c
    ensures (-b + s) % 2 == 0
    ensures (-b - s) % 2 == 0
  {
    var m := s - b;
    assert s * s == b * b + 2 * (b * m) + m * m;
    assert m * m == 2 * (-2 * c - b * m);
    SquareParity(m);
    assert -b - s == m - 2 * s;
  }

  lemma SquareParity(m: int)
    ensures (m * m) % 2 == m % 2
  {
    var j := m / 2;
    if m % 2 == 1 {
      assert m * m == 2 * (2 * j * j + 2 * j) + 1;
    } else {
      assert m * m == 2 * (2 * j * j);
    }
  }

  /**
   * With a leading coefficient of one and a discriminant that is the square
   * of some `s`, the two results are exact: they add up to `-b`, multiply to
   * `c`, and each is a zero of `x^2 + b x + c`.
   */
  lemma QuadsolveMonic(b: int, c: int, s: nat)
    requires s * s == b * b - 4 * c
    ensures Quadsolve(1, b, c).0 + Quadsolve(1, b, c).1 == -b
    ensures Quadsolve(1, b, c).0 * Quadsolve(1, b, c).1 == c
    ensures Quadsolve(1, b, c).0 * Quadsolve(1, b, c).0 + b * Quadsolve(1, b, c).0 + c == 0
    ensures Quadsolve(1, b, c).1 * Quadsolve(1, b, c).1 + b * Quadsolve(1, b, c).1 + c == 0
  {
    assert b * b - 1 * 4 * c == s * s;
    SqrtUnique(b * b - 1 * 4 * c, s);
    MonicExact(b, c, s);
    var k0, k1 := (-b + s) / 2, (-b - s) / 2;
    assert (1 * 2) * k0 == -b + s && (1 * 2) * k1 == -b - s;
    QuadsolveVieta(1, b, c, k0, k1);
  }
}
