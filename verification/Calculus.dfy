/**
 Derivatives of real functions, stated without limits: f has slope m at x if the
 error of the tangent is bounded by a multiple of the squared distance from x.
 (This is a little stronger than differentiability.)
 */
module Calculus {

  function Smaller(x: real, y: real): real { if x < y then x else y }

  /** At distance u the value y differs from y0 + m u by at most k times the square of u. */
  ghost predicate Tangent(y: real, y0: real, m: real, k: real, u: real)
  {
    -(k * (u * u)) <= y - y0 - m * u <= k * (u * u)
  }

  ghost predicate TangentAt(f: real -> real, x: real, m: real, k: real, u: real)
  {
    Tangent(f(x + u), f(x), m, k, u)
  }

  /** k bounds the tangent error of f up to distance delta. */
  ghost predicate Bounded(f: real -> real, x: real, m: real, k: real, delta: real)
  {
    && k >= 0.0 && delta > 0.0
    && forall u :: -delta < u < delta ==> TangentAt(f, x, m, k, u)
  }

  ghost predicate HasSlope(f: real -> real, x: real, m: real)
  {
    exists k, delta :: Bounded(f, x, m, k, delta)
  }

  /** The constants of a slope, with the neighbourhood no wider than a given bound. */
  lemma Constants(f: real -> real, x: real, m: real, limit: real) returns (k: real, delta: real)
    requires HasSlope(f, x, m) && limit > 0.0
    ensures Bounded(f, x, m, k, delta) && delta <= limit
  {
    var d: real;
    k, d :| Bounded(f, x, m, k, d);
    delta := Smaller(d, limit);
  }

  lemma SlopeOfConstant(f: real -> real, x: real)
    requires forall y :: f(y) == f(x)
    ensures HasSlope(f, x, 0.0)
  {
    assert Bounded(f, x, 0.0, 0.0, 1.0);
  }

  lemma SlopeOfSum(f: real -> real, g: real -> real, h: real -> real, x: real, a: real, b: real)
    requires HasSlope(f, x, a) && HasSlope(g, x, b)
    requires forall y :: h(y) == f(y) + g(y)
    ensures HasSlope(h, x, a + b)
  {
    var k, d := Constants(f, x, a, 1.0);
    var l, e := Constants(g, x, b, d);
    var m, c := a + b, k + l;
    forall u | -e < u < e
      ensures TangentAt(h, x, m, c, u)
    {
      assert TangentAt(f, x, a, k, u) && TangentAt(g, x, b, l, u);
      assert h(x + u) == f(x + u) + g(x + u) && h(x) == f(x) + g(x);
      TangentSum(f(x + u), f(x), a, k, g(x + u), g(x), b, l, u);
    }
    assert Bounded(h, x, m, c, e);
  }

  lemma TangentSum(y: real, y0: real, a: real, k: real, z: real, z0: real, b: real, l: real, u: real)
    requires Tangent(y, y0, a, k, u) && Tangent(z, z0, b, l, u)
    ensures Tangent(y + z, y0 + z0, a + b, k + l, u)
  {
    Distribute(a, b, u);
    Distribute(k, l, u * u);
  }

  lemma Distribute(x: real, y: real, z: real)
    ensures (x + y) * z == x * z + y * z
  {
  }

  // ---------- Bounds ----------

  lemma ProductBound(p: real, q: real, pMax: real, qMax: real)
    requires -pMax <= p <= pMax && -qMax <= q <= qMax
    ensures -(pMax * qMax) <= p * q <= pMax * qMax
  {
    assert (pMax - p) * (qMax + q) >= 0.0 && (pMax + p) * (qMax - q) >= 0.0;
    assert (pMax - p) * (qMax - q) >= 0.0 && (pMax + p) * (qMax + q) >= 0.0;
  }

  lemma NonNegativeProduct(x: real, y: real)
    requires 0.0 <= x && 0.0 <= y
    ensures 0.0 <= x * y
  {
  }

  lemma SquareFacts(u: real)
    requires -1.0 <= u <= 1.0
    ensures 0.0 <= u * u <= 1.0
  {
    ProductBound(u, u, 1.0, 1.0);
    if u < 0.0 { ScaleUp(0.0, -u, -u); } else { ScaleUp(0.0, u, u); }
  }

  lemma ScaleUp(k: real, big: real, s: real)
    requires k <= big && 0.0 <= s
    ensures k * s <= big * s
  {
    assert (big - k) * s >= 0.0;
  }

  lemma TwiceBound(p: real, q: real, big: real, t: real, b: real)
    requires -2.0 * big <= p <= 2.0 * big && -t <= q <= t && b == big * t
    ensures -2.0 * b <= p * q <= 2.0 * b
  {
    ProductBound(p, q, 2.0 * big, t);
  }

  lemma ThriceBound(p: real, q: real, big: real, t: real, b: real)
    requires -3.0 * big <= p <= 3.0 * big && -t <= q <= t && b == big * t
    ensures -3.0 * b <= p * q <= 3.0 * b
  {
    ProductBound(p, q, 3.0 * big, t);
  }

  /** A tangent error is at most t, if t is a big enough multiple of the square. */
  lemma AtMost(y: real, y0: real, m: real, k: real, u: real, big: real, v: real, t: real)
    requires Tangent(y, y0, m, k, u) && k <= big && v == m * u && t == big * (u * u)
    ensures -t <= y - y0 - v <= t
  {
    ScaleUp(k, big, u * u);
  }

  lemma IsTangent(y: real, y0: real, m: real, c: real, u: real, v: real, t: real)
    requires -t <= y - y0 - v <= t && v == m * u && t == c * (u * u)
    ensures Tangent(y, y0, m, c, u)
  {
  }

  /** First-order terms v = a u and w = b u, in terms of t = big u^2 and its multiple by big. */
  lemma FirstOrders(a: real, b: real, u: real, big: real) returns (v: real, w: real, t: real, bound: real)
    requires -1.0 <= u <= 1.0 && -big <= a <= big && -big <= b <= big
    ensures v == a * u && w == b * u && t == big * (u * u) && bound == big * t
    ensures -big <= v <= big && -big <= w <= big && t <= big
    ensures -bound <= v * w <= bound
  {
    v := FirstOrder(a, u, big);
    w := FirstOrder(b, u, big);
    t := SquareMultiple(u, big);
    bound := big * t;
    SecondOrderProduct(a, b, u, v, w, u * u, a * b, big, big * big, t, bound);
  }

  lemma FirstOrder(a: real, u: real, big: real) returns (v: real)
    requires -1.0 <= u <= 1.0 && -big <= a <= big
    ensures v == a * u && -big <= v <= big
  {
    v := a * u;
    ProductBound(a, u, big, 1.0);
  }

  lemma SquareMultiple(u: real, big: real) returns (t: real)
    requires -1.0 <= u <= 1.0 && 0.0 <= big
    ensures t == big * (u * u) && 0.0 <= t <= big && 0.0 <= u * u
  {
    SquareFacts(u);
    t := big * (u * u);
    ScaleUp(u * u, 1.0, big);
  }

  lemma SecondOrderProduct(a: real, b: real, u: real, v: real, w: real, s: real, p: real, big: real, q: real, t: real, bound: real)
    requires v == a * u && w == b * u && s == u * u && p == a * b && 0.0 <= s
    requires q == big * big && t == big * s && bound == big * t
    requires -big <= a <= big && -big <= b <= big
    ensures -bound <= v * w <= bound
  {
    ProductBound(a, b, big, big);
    ProductBound(p, s, q, s);
    Interchange(a, b, u, v, w, s, p);
    RegroupBound(big, s, q, t, bound);
  }

  lemma Interchange(a: real, b: real, u: real, v: real, w: real, s: real, p: real)
    requires v == a * u && w == b * u && s == u * u && p == a * b
    ensures v * w == p * s
  {
    assert a * u * (b * u) == a * b * (u * u);
  }

  lemma RegroupBound(big: real, s: real, q: real, t: real, bound: real)
    requires q == big * big && t == big * s && bound == big * t
    ensures q * s == bound
  {
    assert big * big * s == big * (big * s);
  }

  // ---------- Products ----------

  /** The slope of a product, from the values and slopes of its factors. */
  ghost predicate ProductRule(m: real, y0: real, z0: real, a: real, b: real)
  {
    m == a * z0 + y0 * b
  }

  /** The constant that a product needs, if no value, slope or constant of its factors is larger than big. */
  function ProductConstant(big: real): real { 6.0 * (big * big) }

  /**
   The error of a product: v and w are the first-order parts of the factors and r and q their errors,
   none larger than t, and t is at most big.
   */
  lemma ProductError(y0: real, z0: real, v: real, w: real, r: real, q: real, big: real, t: real, b: real)
    requires -big <= y0 <= big && -big <= z0 <= big && -big <= v <= big && -big <= w <= big
    requires t <= big && b == big * t
    requires -b <= v * w <= b && -t <= r <= t && -t <= q <= t
    ensures -6.0 * b <= (y0 + v + r) * (z0 + w + q) - y0 * z0 - (v * z0 + y0 * w) <= 6.0 * b
  {
    TwiceBound(y0 + v, q, big, t, b);
    ThriceBound(z0 + w + q, r, big, t, b);
    ExpandProduct(y0, z0, v, w, r, q);
  }

  lemma ExpandProduct(y0: real, z0: real, v: real, w: real, r: real, q: real)
    ensures (y0 + v + r) * (z0 + w + q) - y0 * z0 - (v * z0 + y0 * w) == v * w + (y0 + v) * q + (z0 + w + q) * r
  {
  }

  lemma ProductErrorOf(y0: real, z0: real, y: real, z: real, v: real, w: real, big: real, t: real, b: real)
    requires -big <= y0 <= big && -big <= z0 <= big && -big <= v <= big && -big <= w <= big
    requires t <= big && b == big * t
    requires -b <= v * w <= b && -t <= y - y0 - v <= t && -t <= z - z0 - w <= t
    ensures -6.0 * b <= y * z - y0 * z0 - (v * z0 + y0 * w) <= 6.0 * b
  {
    ProductError(y0, z0, v, w, y - y0 - v, z - z0 - w, big, t, b);
    assert y0 + v + (y - y0 - v) == y && z0 + w + (z - z0 - w) == z;
  }

  lemma TangentProduct(y: real, y0: real, a: real, k: real, z: real, z0: real, b: real, l: real, u: real, big: real, m: real)
    requires -1.0 <= u <= 1.0 && Tangent(y, y0, a, k, u) && Tangent(z, z0, b, l, u)
    requires -big <= y0 <= big && -big <= z0 <= big && -big <= a <= big && -big <= b <= big && k <= big && l <= big
    requires ProductRule(m, y0, z0, a, b)
    ensures Tangent(y * z, y0 * z0, m, ProductConstant(big), u)
  {
    var v, w, t, bound := FirstOrders(a, b, u, big);
    AtMost(y, y0, a, k, u, big, v, t);
    AtMost(z, z0, b, l, u, big, w, t);
    ProductErrorOf(y0, z0, y, z, v, w, big, t, bound);
    ProductEnd(y * z, y0, z0, a, b, u, big, v, w, v * z0 + y0 * w, t, bound, m);
  }

  lemma ProductEnd(x: real, y0: real, z0: real, a: real, b: real, u: real, big: real,
                   v: real, w: real, first: real, t: real, bound: real, m: real)
    requires v == a * u && w == b * u && t == big * (u * u) && bound == big * t
    requires first == v * z0 + y0 * w && -6.0 * bound <= x - y0 * z0 - first <= 6.0 * bound
    requires ProductRule(m, y0, z0, a, b)
    ensures Tangent(x, y0 * z0, m, ProductConstant(big), u)
  {
    SplitFirstOrder(a, z0, y0, b, u, v, w, m);
    SixfoldBound(big, u, t, bound);
    IsTangent(x, y0 * z0, m, ProductConstant(big), u, first, 6.0 * bound);
  }

  lemma SixfoldBound(big: real, u: real, t: real, bound: real)
    requires t == big * (u * u) && bound == big * t
    ensures 6.0 * bound == ProductConstant(big) * (u * u)
  {
  }

  lemma SplitFirstOrder(a: real, z0: real, y0: real, b: real, u: real, v: real, w: real, m: real)
    requires ProductRule(m, y0, z0, a, b) && v == a * u && w == b * u
    ensures m * u == v * z0 + y0 * w
  {
  }

  // ---------- Reciprocals ----------

  function ReciprocalConstant(big: real): real { 6.0 * (big * big) * (big * (big * big)) }

  /** The slope of a reciprocal, from the slope of the denominator and the value of the reciprocal. */
  ghost predicate ReciprocalRule(m: real, a: real, i0: real)
  {
    m == -(a * (i0 * i0))
  }

  lemma ReciprocalNumerator(y0: real, y: real, v: real, r: real, i0: real, i: real, top: real, d: real)
    requires Inverse(i0, y0) && Inverse(i, y) && r == y - y0 - v
    requires top == v * v + v * r - y0 * r && d == i * (i0 * i0)
    ensures i - i0 + v * (i0 * i0) == top * d
  {
    // Clear the denominators: multiply out with i0 y0 = 1 and i y = 1.
    var j := i * (i0 * i0);
    assert j * (y0 * y0) == i by { assert j * (y0 * y0) == i * ((i0 * y0) * (i0 * y0)); }
    assert j * (y0 * y) == i0 by { assert j * (y0 * y) == (i * y) * (i0 * y0) * i0; }
    assert j * (v * y) == v * (i0 * i0) by { assert j * (v * y) == (i * y) * (v * (i0 * i0)); }
    assert y0 * y0 - y0 * y + v * y == v * v + v * r - y0 * r;
    assert j * (y0 * y0) - j * (y0 * y) + j * (v * y) == j * (y0 * y0 - y0 * y + v * y);
  }

  /** The numerator of the error of a reciprocal. */
  lemma NumeratorBound(y0: real, v: real, r: real, big: real, t: real, bound: real) returns (top: real, limit: real)
    requires -big <= y0 <= big && -big <= v <= big && bound == big * t
    requires -bound <= v * v <= bound && -t <= r <= t
    ensures top == v * v + v * r - y0 * r && limit == 3.0 * bound && -limit <= top <= limit
  {
    ProductBound(v, r, big, t);
    ProductBound(y0, r, big, t);
    top, limit := v * v + v * r - y0 * r, 3.0 * bound;
  }

  lemma DenominatorBound(i: real, i0: real, big: real) returns (d: real, g: real)
    requires -big <= i0 <= big && -2.0 * big <= i <= 2.0 * big
    ensures d == i * (i0 * i0) && g == 2.0 * big * (big * big) && -g <= d <= g
  {
    ProductBound(i0, i0, big, big);
    ProductBound(i, i0 * i0, 2.0 * big, big * big);
    d, g := i * (i0 * i0), 2.0 * big * (big * big);
  }

  lemma TangentReciprocal(y: real, y0: real, a: real, k: real, i: real, i0: real, u: real, big: real, m: real)
    requires -1.0 <= u <= 1.0 && Tangent(y, y0, a, k, u) && Inverse(i0, y0) && Inverse(i, y)
    requires -big <= y0 <= big && -big <= a <= big && -big <= i0 <= big && -2.0 * big <= i <= 2.0 * big && k <= big
    requires ReciprocalRule(m, a, i0)
    ensures Tangent(i, i0, m, ReciprocalConstant(big), u)
  {
    var v, t, bound := FirstOrderSquare(a, u, big);
    DenominatorError(y, y0, a, k, u, big, v, t, bound);
    var first, limit, g, e := ReciprocalError(y, y0, i, i0, big, v, y - y0 - v, t, bound);
    ReciprocalEnd(i, i0, a, u, big, v, t, bound, first, limit, g, e, m);
  }

  ghost predicate Inverse(i: real, y: real) { i * y == 1.0 }

  /** v = a u is of first order, and t = big u^2 and bound = big t bound second-order terms. */
  ghost predicate Orders(a: real, u: real, big: real, v: real, t: real, bound: real)
  {
    v == a * u && t == big * (u * u) && bound == big * t
  }

  lemma FirstOrderSquare(a: real, u: real, big: real) returns (v: real, t: real, bound: real)
    requires -1.0 <= u <= 1.0 && -big <= a <= big
    ensures Orders(a, u, big, v, t, bound) && -big <= v <= big && SquareWithin(v, bound)
  {
    var w: real;
    v, w, t, bound := FirstOrders(a, a, u, big);
    assert v == w;
  }

  ghost predicate SquareWithin(v: real, bound: real) { -bound <= v * v <= bound }

  lemma DenominatorError(y: real, y0: real, a: real, k: real, u: real, big: real, v: real, t: real, bound: real)
    requires Tangent(y, y0, a, k, u) && k <= big && Orders(a, u, big, v, t, bound)
    ensures -t <= y - y0 - v <= t
    ensures bound == big * t
  {
    AtMost(y, y0, a, k, u, big, v, t);
  }

  /** What is left of the reciprocal beyond its first-order part, and a bound for it. */
  lemma ReciprocalError(y: real, y0: real, i: real, i0: real, big: real, v: real, r: real, t: real, bound: real)
    returns (first: real, limit: real, g: real, e: real)
    requires -big <= v <= big && SquareWithin(v, bound) && bound == big * t && r == y - y0 - v && -t <= r <= t
    requires Inverse(i0, y0) && Inverse(i, y) && -big <= y0 <= big && -big <= i0 <= big && -2.0 * big <= i <= 2.0 * big
    ensures first == -(v * (i0 * i0))
    ensures limit == 3.0 * bound && g == 2.0 * big * (big * big) && e == limit * g
    ensures -e <= i - i0 - first <= e
  {
    var top, d: real;
    top, limit := NumeratorBound(y0, v, r, big, t, bound);
    d, g := DenominatorBound(i, i0, big);
    first, e := ErrorWithin(y, y0, i, i0, v, r, top, d, limit, g);
  }

  lemma ErrorWithin(y: real, y0: real, i: real, i0: real, v: real, r: real, top: real, d: real, limit: real, g: real)
    returns (first: real, e: real)
    requires Inverse(i0, y0) && Inverse(i, y) && r == y - y0 - v
    requires top == v * v + v * r - y0 * r && d == i * (i0 * i0) && -limit <= top <= limit && -g <= d <= g
    ensures first == -(v * (i0 * i0)) && e == limit * g && -e <= i - i0 - first <= e
  {
    first, e := -(v * (i0 * i0)), limit * g;
    ReciprocalNumerator(y0, y, v, r, i0, i, top, d);
    ProductBound(top, d, limit, g);
  }

  lemma ReciprocalEnd(i: real, i0: real, a: real, u: real, big: real, v: real, t: real, bound: real, first: real,
                      limit: real, g: real, e: real, m: real)
    requires Orders(a, u, big, v, t, bound) && ReciprocalRule(m, a, i0)
    requires first == -(v * (i0 * i0)) && -e <= i - i0 - first <= e
    requires limit == 3.0 * bound && g == 2.0 * big * (big * big) && e == limit * g
    ensures Tangent(i, i0, m, ReciprocalConstant(big), u)
  {
    FirstOrderOfReciprocal(m, a, i0, u, v);
    FifthOrderBound(big, u, t, bound, g);
    IsTangent(i, i0, m, ReciprocalConstant(big), u, first, e);
  }

  lemma FirstOrderOfReciprocal(m: real, a: real, i0: real, u: real, v: real)
    requires ReciprocalRule(m, a, i0) && v == a * u
    ensures m * u == -(v * (i0 * i0))
  {
  }

  lemma FifthOrderBound(big: real, u: real, t: real, bound: real, g: real)
    requires t == big * (u * u) && bound == big * t && g == 2.0 * big * (big * big)
    ensures 3.0 * bound * g == ReciprocalConstant(big) * (u * u)
  {
    var q, s := big * big, u * u;
    assert 3.0 * (big * (big * s)) * (2.0 * big * q) == 6.0 * q * (big * q) * s;
  }

  /** Close enough to the starting point a positive quantity keeps at least half its size. */
  lemma StaysPositive(y: real, y0: real, a: real, k: real, u: real, big: real, near: real)
    requires -1.0 <= u <= 1.0 && Tangent(y, y0, a, k, u)
    requires -big <= a <= big && 0.0 <= k <= big && 0.0 < y0 && 4.0 * (big * near) == y0 && -near < u < near
    ensures 2.0 * y >= y0
  {
    var z := if u < 0.0 then -u else u;
    var v, q, limit := Drift(a, k, u, big, z);
    ScaleUp(z, near, big);
  }

  lemma Drift(a: real, k: real, u: real, big: real, z: real) returns (v: real, q: real, limit: real)
    requires -1.0 <= u <= 1.0 && (z == u || z == -u) && 0.0 <= z && -big <= a <= big && 0.0 <= k <= big
    ensures v == a * u && q == k * (u * u) && limit == z * big && -limit <= v <= limit && q <= limit
  {
    v, q, limit := a * u, k * (u * u), z * big;
    ProductBound(a, u, big, z);
    SquareBelow(u, z);
    ScaleUp(k, big, u * u);
    ScaleUp(u * u, z, big);
  }

  lemma SquareBelow(u: real, z: real)
    requires -1.0 <= u <= 1.0 && (z == u || z == -u) && 0.0 <= z
    ensures 0.0 <= u * u <= z
  {
    SquareFacts(u);
    if z == u {
      NonNegativeProduct(u, 1.0 - u);
    } else {
      NonNegativeProduct(-u, 1.0 + u);
    }
  }

  lemma PositiveReciprocal(y: real, i: real)
    requires 0.0 < y && Inverse(i, y)
    ensures 0.0 < i
  {
    if i <= 0.0 { ScaleUp(i, 0.0, y); }
  }

  lemma HalvedReciprocal(y: real, y0: real, i: real, i0: real)
    requires 0.0 < y0 && 2.0 * y >= y0 && Inverse(i0, y0) && Inverse(i, y)
    ensures 0.0 < i <= 2.0 * i0
  {
    PositiveReciprocal(y0, i0);
    PositiveReciprocal(y, i);
    SwapReciprocals(y, y0, i, i0, i * i0);
    ScaleUp(y0, 2.0 * y, i * i0);
  }

  lemma SwapReciprocals(y: real, y0: real, i: real, i0: real, p: real)
    requires Inverse(i0, y0) && Inverse(i, y) && p == i * i0 && 0.0 < i && 0.0 < i0
    ensures y0 * p == i && 2.0 * y * p == 2.0 * i0 && 0.0 <= p
  {
    assert y0 * (i * i0) == i * (i0 * y0);
    assert y * (i * i0) == i0 * (i * y);
  }

  // ---------- The rules for functions ----------

  /** A number at least as large as six given ones, whatever their sign. */
  lemma Largest(p: real, q: real, r: real, s: real, t: real, v: real) returns (big: real)
    ensures big >= 0.0
    ensures -big <= p <= big && -big <= q <= big && -big <= r <= big
    ensures -big <= s <= big && -big <= t <= big && -big <= v <= big
  {
    big := Larger(Larger(Larger(Larger(Larger(Larger(0.0, p), q), r), s), t), v);
  }

  function Larger(big: real, x: real): (m: real)
    requires big >= 0.0
    ensures m >= big && -m <= x <= m
  {
    if x > big then x else if -x > big then -x else big
  }

  lemma SlopeOfProduct(f: real -> real, g: real -> real, h: real -> real, x: real, a: real, b: real, m: real)
    requires HasSlope(f, x, a) && HasSlope(g, x, b)
    requires forall y :: IsProduct(h, f, g, y)
    requires ProductRule(m, f(x), g(x), a, b)
    ensures HasSlope(h, x, m)
  {
    var k, d := Constants(f, x, a, 1.0);
    var l, e := Constants(g, x, b, d);
    var big := Largest(f(x), g(x), a, b, k, l);
    var c := ConstantOfProduct(big);
    forall u | -e < u < e
      ensures TangentAt(h, x, m, c, u)
    {
      assert TangentAt(f, x, a, k, u) && TangentAt(g, x, b, l, u);
      assert IsProduct(h, f, g, x) && IsProduct(h, f, g, x + u);
      ProductAt(f, g, h, x, a, b, k, l, u, big, m);
    }
    assert Bounded(h, x, m, c, e);
  }

  ghost predicate IsProduct(h: real -> real, f: real -> real, g: real -> real, y: real)
  {
    h(y) == f(y) * g(y)
  }

  lemma ProductAt(f: real -> real, g: real -> real, h: real -> real, x: real, a: real, b: real,
                  k: real, l: real, u: real, big: real, m: real)
    requires -1.0 <= u <= 1.0 && TangentAt(f, x, a, k, u) && TangentAt(g, x, b, l, u)
    requires IsProduct(h, f, g, x) && IsProduct(h, f, g, x + u)
    requires -big <= f(x) <= big && -big <= g(x) <= big && -big <= a <= big && -big <= b <= big && k <= big && l <= big
    requires ProductRule(m, f(x), g(x), a, b)
    ensures TangentAt(h, x, m, ProductConstant(big), u)
  {
    TangentProduct(f(x + u), f(x), a, k, g(x + u), g(x), b, l, u, big, m);
  }

  lemma ConstantOfProduct(big: real) returns (c: real)
    ensures c == ProductConstant(big) && 0.0 <= c
  {
    c := ProductConstant(big);
    if big < 0.0 { NonNegativeProduct(-big, -big); } else { NonNegativeProduct(big, big); }
  }

  lemma ConstantOfReciprocal(big: real) returns (c: real)
    requires 0.0 <= big
    ensures c == ReciprocalConstant(big) && 0.0 <= c
  {
    c := ReciprocalConstant(big);
    NonNegativeProduct(big, big);
    NonNegativeProduct(big, big * big);
    NonNegativeProduct(6.0 * (big * big), big * (big * big));
  }

  /** The reciprocal of a function that is positive at x. */
  lemma SlopeOfReciprocal(f: real -> real, h: real -> real, x: real, a: real, m: real)
    requires HasSlope(f, x, a) && 0.0 < f(x)
    requires forall y :: IsReciprocal(h, f, y)
    requires ReciprocalRule(m, a, h(x))
    ensures HasSlope(h, x, m)
  {
    var k, d := Constants(f, x, a, 1.0);
    var big := Largest(f(x), a, h(x), k, 1.0, 0.0);
    var near := Neighbourhood(f(x), big);
    var c := ConstantOfReciprocal(big);
    var e := Smaller(d, near);
    InverseAt(f, h, x);
    forall u | -e < u < e
      ensures TangentAt(h, x, m, c, u)
    {
      assert TangentAt(f, x, a, k, u) && IsReciprocal(h, f, x + u);
      ReciprocalAt(f(x + u), f(x), a, k, h(x + u), h(x), u, big, near, m);
    }
    assert Bounded(h, x, m, c, e);
  }

  ghost predicate IsReciprocal(h: real -> real, f: real -> real, y: real)
  {
    f(y) != 0.0 ==> h(y) == 1.0 / f(y)
  }

  lemma InverseAt(f: real -> real, h: real -> real, x: real)
    requires IsReciprocal(h, f, x) && f(x) != 0.0
    ensures Inverse(h(x), f(x))
  {
    IsInverse(f(x));
  }

  lemma IsInverse(y: real)
    requires y != 0.0
    ensures Inverse(1.0 / y, y)
  {
  }

  lemma Neighbourhood(y0: real, big: real) returns (near: real)
    requires 0.0 < y0 && 1.0 <= big
    ensures 0.0 < near && 4.0 * (big * near) == y0
  {
    near := y0 / (4.0 * big);
    assert near * (4.0 * big) == y0;
    assert 4.0 * (big * near) == near * (4.0 * big);
  }

  lemma ReciprocalAt(y: real, y0: real, a: real, k: real, i: real, i0: real, u: real, big: real, near: real, m: real)
    requires -1.0 <= u <= 1.0 && -near < u < near && Tangent(y, y0, a, k, u)
    requires 0.0 < y0 && Inverse(i0, y0) && (y != 0.0 ==> i == 1.0 / y) && 4.0 * (big * near) == y0
    requires -big <= y0 <= big && -big <= a <= big && -big <= i0 <= big && 0.0 <= k <= big
    requires ReciprocalRule(m, a, i0)
    ensures Tangent(i, i0, m, ReciprocalConstant(big), u)
  {
    StaysPositive(y, y0, a, k, u, big, near);
    IsInverse(y);
    HalvedReciprocal(y, y0, i, i0);
    TangentReciprocal(y, y0, a, k, i, i0, u, big, m);
  }

  /** h = c f + shift, at y. */
  ghost predicate IsAffine(h: real -> real, c: real, f: real -> real, shift: real, y: real)
  {
    h(y) == c * f(y) + shift
  }

  ghost predicate IsShift(h: real -> real, f: real -> real, shift: real, y: real)
  {
    h(y) == f(y) + shift
  }

  lemma SlopeOfShift(f: real -> real, shift: real, h: real -> real, x: real, a: real)
    requires HasSlope(f, x, a)
    requires forall y :: IsShift(h, f, shift, y)
    ensures HasSlope(h, x, a)
  {
    var k, d := Constants(f, x, a, 1.0);
    forall u | -d < u < d
      ensures TangentAt(h, x, a, k, u)
    {
      assert TangentAt(f, x, a, k, u);
      assert IsShift(h, f, shift, x + u) && IsShift(h, f, shift, x);
      TangentShift(f(x + u), f(x), a, k, u, shift);
    }
    assert Bounded(h, x, a, k, d);
  }

  lemma SlopeOfAffine(c: real, f: real -> real, shift: real, h: real -> real, x: real, a: real, m: real)
    requires HasSlope(f, x, a) && ScaledSlope(m, c, a)
    requires forall y :: IsAffine(h, c, f, shift, y)
    ensures HasSlope(h, x, m)
  {
    var k, d := Constants(f, x, a, 1.0);
    var l := ConstantOfMultiple(c, k);
    forall u | -d < u < d
      ensures TangentAt(h, x, m, l, u)
    {
      assert TangentAt(f, x, a, k, u) && IsAffine(h, c, f, shift, x) && IsAffine(h, c, f, shift, x + u);
      AffineAt(c, f, shift, h, x, a, m, k, l, u);
    }
    assert Bounded(h, x, m, l, d);
  }

  ghost predicate ScaledSlope(m: real, c: real, a: real) { m == c * a }

  function Size(c: real): real { if c < 0.0 then -c else c }

  lemma ConstantOfMultiple(c: real, k: real) returns (l: real)
    requires 0.0 <= k
    ensures ScaledSlope(l, Size(c), k) && 0.0 <= l
  {
    l := Size(c) * k;
    NonNegativeProduct(Size(c), k);
  }

  lemma AffineAt(c: real, f: real -> real, shift: real, h: real -> real, x: real, a: real, m: real, k: real, l: real, u: real)
    requires TangentAt(f, x, a, k, u) && ScaledSlope(m, c, a) && ScaledSlope(l, Size(c), k)
    requires IsAffine(h, c, f, shift, x) && IsAffine(h, c, f, shift, x + u)
    ensures TangentAt(h, x, m, l, u)
  {
    TangentMultiple(c, f(x + u), f(x), a, k, m, l, u);
    TangentShift(c * f(x + u), c * f(x), m, l, u, shift);
  }

  lemma TangentShift(y: real, y0: real, m: real, k: real, u: real, shift: real)
    requires Tangent(y, y0, m, k, u)
    ensures Tangent(y + shift, y0 + shift, m, k, u)
  {
  }

  lemma TangentMultiple(c: real, y: real, y0: real, a: real, k: real, m: real, l: real, u: real)
    requires Tangent(y, y0, a, k, u) && ScaledSlope(m, c, a) && ScaledSlope(l, Size(c), k)
    ensures Tangent(c * y, c * y0, m, l, u)
  {
    var t, e := k * (u * u), y - y0 - a * u;
    ProductBound(e, Size(c), t, Size(c));
    MultipleError(c, y, y0, a, u, e);
    MultipleBound(c, k, u, t);
  }

  lemma MultipleError(c: real, y: real, y0: real, a: real, u: real, e: real)
    requires e == y - y0 - a * u
    ensures c * y - c * y0 - c * a * u == c * e
  {
  }

  lemma MultipleBound(c: real, k: real, u: real, t: real)
    requires t == k * (u * u)
    ensures Size(c) * k * (u * u) == t * Size(c)
  {
  }

  lemma SlopeOfLine(f: real -> real, x: real, m: real)
    requires forall y :: OnLine(f, x, m, y)
    ensures HasSlope(f, x, m)
  {
    forall u | -1.0 < u < 1.0
      ensures TangentAt(f, x, m, 0.0, u)
    {
      assert OnLine(f, x, m, x + u);
    }
    assert Bounded(f, x, m, 0.0, 1.0);
  }

  ghost predicate OnLine(f: real -> real, x: real, m: real, y: real)
  {
    f(y) == f(x) + m * (y - x)
  }

  /** A function has at most one slope at a point. */
  lemma SlopeIsUnique(f: real -> real, x: real, a: real, b: real)
    requires HasSlope(f, x, a) && HasSlope(f, x, b)
    ensures a == b
  {
    var k, d := Constants(f, x, a, 1.0);
    var l, e := Constants(f, x, b, d);
    if a != b {
      var gap := if a < b then b - a else a - b;
      var u := SmallStep(gap, k + l, e);
      assert TangentAt(f, x, a, k, u) && TangentAt(f, x, b, l, u);
      SlopesDiffer(f(x + u), f(x), a, b, k, l, u, gap);
    }
  }

  lemma SmallStep(gap: real, c: real, e: real) returns (u: real)
    requires 0.0 < gap && 0.0 <= c && 0.0 < e
    ensures 0.0 < u < e && c * u < gap
  {
    u := Smaller(e / 2.0, gap / (2.0 * (c + 1.0)));
    var v := gap / (2.0 * (c + 1.0));
    assert v * (2.0 * (c + 1.0)) == gap;
    assert 0.0 < v;
    ScaleUp(u, v, c);
    assert 2.0 * (v * c) + 2.0 * v == gap;
  }

  lemma SlopesDiffer(y: real, y0: real, a: real, b: real, k: real, l: real, u: real, gap: real)
    requires 0.0 < u && gap == (if a < b then b - a else a - b)
    requires Tangent(y, y0, a, k, u) && Tangent(y, y0, b, l, u)
    ensures gap <= (k + l) * u
  {
    var c := (k + l) * u;
    assert c * u == k * (u * u) + l * (u * u);
    assert a * u - b * u <= c * u && b * u - a * u <= c * u;
    assert gap * u <= c * u by { Distribute(a, -b, u); }
    Cancel(gap, c, u);
  }

  // ---------- Functions that are put together at a point ----------

  /** y lies on one side of x, within delta. */
  predicate Beside(right: bool, x: real, delta: real, y: real)
  {
    if right then x < y < x + delta else x - delta < y < x
  }

  /**
   If e is g just right of x and h just left of it, e has a slope at x exactly when the three agree at x and the two slopes agree,
   and then it has that slope.
   */
  lemma SlopeFromSides(e: real -> real, g: real -> real, h: real -> real, x: real, a: real, b: real, m: real, delta: real)
    requires 0.0 < delta && HasSlope(g, x, a) && HasSlope(h, x, b)
    requires forall y :: Beside(true, x, delta, y) ==> e(y) == g(y)
    requires forall y :: Beside(false, x, delta, y) ==> e(y) == h(y)
    ensures HasSlope(e, x, m) <==> e(x) == g(x) == h(x) && m == a == b
  {
    if HasSlope(e, x, m) {
      OneSided(e, g, x, a, m, delta, true);
      OneSided(e, h, x, b, m, delta, false);
    }
    if e(x) == g(x) == h(x) && m == a == b {
      Together(e, g, h, x, m, delta);
    }
  }

  lemma OneSided(e: real -> real, g: real -> real, x: real, a: real, m: real, delta: real, right: bool)
    requires 0.0 < delta && HasSlope(e, x, m) && HasSlope(g, x, a)
    requires forall y :: Beside(right, x, delta, y) ==> e(y) == g(y)
    ensures e(x) == g(x) && m == a
  {
    var k, d := Constants(e, x, m, delta);
    var l, r := Constants(g, x, a, d);
    var jump, turn, big := e(x) - g(x), if right then m - a else a - m, k + l;
    forall u | 0.0 < u < r
      ensures Closes(jump, turn, big, u)
    {
      var v := if right then u else -u;
      assert TangentAt(e, x, m, k, v) && TangentAt(g, x, a, l, v);
      assert Beside(right, x, delta, x + v);
      assert e(x + v) == g(x + v);
      TangentsMeet(e(x + v), e(x), g(x), m, a, k, l, v, u, turn, big);
    }
    NoJump(jump, turn, big, r);
  }

  ghost predicate Closes(jump: real, turn: real, k: real, u: real)
  {
    -(k * (u * u)) <= jump + turn * u <= k * (u * u)
  }

  lemma TangentsMeet(y: real, y0: real, z0: real, m: real, a: real, k: real, l: real, v: real, u: real, turn: real, big: real)
    requires Tangent(y, y0, m, k, v) && Tangent(y, z0, a, l, v) && big == k + l
    requires (v == u && turn == m - a) || (v == -u && turn == a - m)
    ensures Closes(y0 - z0, turn, big, u)
  {
    assert v * v == u * u;
    assert big * (v * v) == k * (v * v) + l * (v * v);
    assert (m - a) * v == m * v - a * v;
    assert (m - a) * v == turn * u;
  }

  /** What vanishes faster than linearly has no constant and no linear part. */
  lemma NoJump(jump: real, turn: real, k: real, range: real)
    requires 0.0 <= k && 0.0 < range
    requires forall u :: 0.0 < u < range ==> Closes(jump, turn, k, u)
    ensures jump == 0.0 && turn == 0.0
  {
    if jump != 0.0 {
      var u := SmallStep(Size(jump), Size(turn) + k, Smaller(range, 1.0));
      assert Closes(jump, turn, k, u);
      var v := SmallSquare(u);
      JumpBound(jump, turn, k, u, v);
    } else if turn != 0.0 {
      var u := SmallStep(Size(turn), k, range);
      assert Closes(jump, turn, k, u);
      assert k * (u * u) == (k * u) * u;
      TurnBound(turn, k * u, u);
    }
  }

  lemma SmallSquare(u: real) returns (v: real)
    requires 0.0 < u < 1.0
    ensures v == u * u && v <= u
  {
    v := u * u;
    ScaleUp(u, 1.0, u);
  }

  lemma JumpBound(jump: real, turn: real, k: real, u: real, v: real)
    requires 0.0 < u && v <= u && 0.0 <= k && -(k * v) <= jump + turn * u <= k * v
    ensures Size(jump) <= (Size(turn) + k) * u
  {
    assert k * v <= k * u by {
      ScaleUp(v, u, k);
      assert v * k == k * v && u * k == k * u;
    }
    assert (Size(turn) + k) * u == Size(turn) * u + k * u;
    assert Size(turn) * u == if turn < 0.0 then -(turn * u) else turn * u;
    ScaleUp(0.0, Size(turn), u);
  }

  lemma TurnBound(turn: real, q: real, u: real)
    requires 0.0 < u && -(q * u) <= turn * u <= q * u
    ensures Size(turn) <= q
  {
    Cancel(turn, q, u);
    Cancel(-q, turn, u);
  }

  lemma Together(e: real -> real, g: real -> real, h: real -> real, x: real, m: real, delta: real)
    requires 0.0 < delta && HasSlope(g, x, m) && HasSlope(h, x, m) && e(x) == g(x) == h(x)
    requires forall y :: Beside(true, x, delta, y) ==> e(y) == g(y)
    requires forall y :: Beside(false, x, delta, y) ==> e(y) == h(y)
    ensures HasSlope(e, x, m)
  {
    var k, d := Constants(g, x, m, delta);
    var l, r := Constants(h, x, m, d);
    var big := k + l;
    forall u | -r < u < r
      ensures TangentAt(e, x, m, big, u)
    {
      if u < 0.0 {
        assert Beside(false, x, delta, x + u) && TangentAt(h, x, m, l, u);
        MoreRoom(e(x + u), e(x), m, l, big, u);
      } else {
        assert (0.0 < u ==> Beside(true, x, delta, x + u)) && TangentAt(g, x, m, k, u);
        assert u == 0.0 ==> x + u == x;
        MoreRoom(e(x + u), e(x), m, k, big, u);
      }
    }
    assert Bounded(e, x, m, big, r);
  }

  lemma MoreRoom(y: real, y0: real, m: real, k: real, big: real, u: real)
    requires Tangent(y, y0, m, k, u) && k <= big
    ensures Tangent(y, y0, m, big, u)
  {
    var square := u * u;
    assert 0.0 <= square;
    ScaleUp(k, big, square);
  }

  lemma PositiveProduct(x: real, y: real)
    requires 0.0 < x && 0.0 < y
    ensures 0.0 < x * y
  {
  }

  lemma Cancel(p: real, q: real, u: real)
    requires 0.0 < u && p * u <= q * u
    ensures p <= q
  {
    if q < p { PositiveProduct(p - q, u); }
  }
}
