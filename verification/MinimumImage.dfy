/** The minimum image of a displacement in one periodic direction. */
module MinimumImage {

  function Abs(x: real): real { if x < 0.0 then -x else x }

  /** How many whole box lengths the wrap takes off the displacement. */
  function Images(d: real, length: real): int
    requires length != 0.0
  {
    (d / length + 0.5).Floor
  }

  /** A displacement in one direction brought back to its nearest image. */
  function Wrap(d: real, length: real): real
    requires length != 0.0
  {
    d - length * Images(d, length) as real
  }

  /** Half a box exactly: the two nearest images are equally far, and the wrap picks one of them. */
  predicate IsTie(d: real, length: real)
    requires length != 0.0
  {
    2.0 * Wrap(d, length) == -length
  }

  lemma ImagesBounds(d: real, length: real)
    requires length != 0.0
    ensures Images(d, length) as real <= d / length + 0.5 < Images(d, length) as real + 1.0
  {
  }

  /** Only one whole number lies in the half-open unit interval below x. */
  lemma FloorUnique(x: real, m: int)
    requires m as real <= x < m as real + 1.0
    ensures x.Floor == m
  {
  }

  /** Relative to the box length the wrapped value lies in [-1/2, 1/2). */
  lemma WrapRelative(d: real, length: real) returns (u: real)
    requires length != 0.0
    ensures u * length == Wrap(d, length)
    ensures -0.5 <= u < 0.5
  {
    ImagesBounds(d, length);
    u := d / length - Images(d, length) as real;
    assert d / length * length == d;
    assert u * length == d / length * length - Images(d, length) as real * length;
  }

  lemma TieRelative(d: real, length: real, u: real)
    requires length != 0.0 && u * length == Wrap(d, length)
    ensures IsTie(d, length) <==> u == -0.5
  {
    assert (2.0 * u + 1.0) * length == 2.0 * (u * length) + length;
  }

  /** For a positive length the wrapped value lies in [-length / 2, length / 2). */
  lemma WrapRange(d: real, length: real)
    requires length > 0.0
    ensures -length <= 2.0 * Wrap(d, length) < length
  {
    var u := WrapRelative(d, length);
    assert -0.5 * length <= u * length < 0.5 * length;
  }

  /** The wrapped value is the only representative of d modulo length whose relative position lies in [-1/2, 1/2). */
  lemma WrapUnique(d: real, length: real, m: int, u: real)
    requires length != 0.0
    requires d - length * m as real == u * length && -0.5 <= u < 0.5
    ensures Images(d, length) == m && Wrap(d, length) == u * length
  {
    assert d == (u + m as real) * length;
    assert d / length == u + m as real;
    FloorUnique(d / length + 0.5, m);
  }

  /** Whole box lengths do not matter. */
  lemma WrapShift(d: real, length: real, m: int)
    requires length != 0.0
    ensures Wrap(d + length * m as real, length) == Wrap(d, length)
  {
    var u := WrapRelative(d, length);
    var k := Images(d, length) + m;
    assert length * k as real == length * Images(d, length) as real + length * m as real;
    WrapUnique(d + length * m as real, length, k, u);
  }

  /** Reversing a displacement reverses its wrapped value, except at a tie, where both ends wrap to the same value. */
  lemma WrapReversed(d: real, length: real)
    requires length != 0.0
    ensures Wrap(-d, length) == if IsTie(d, length) then Wrap(d, length) else -Wrap(d, length)
    ensures IsTie(-d, length) <==> IsTie(d, length)
  {
    var u := WrapRelative(d, length);
    var m := Images(d, length);
    TieRelative(d, length, u);
    if u == -0.5 {
      assert length * (1 - m) as real == length - length * m as real;
      WrapUnique(-d, length, 1 - m, u);
    } else {
      assert -d - length * (-m) as real == (-u) * length;
      WrapUnique(-d, length, -m, -u);
    }
  }

  /** No whole number of box lengths brings d closer to zero than the wrap does. */
  lemma WrapIsNearest(d: real, length: real, m: int)
    requires length != 0.0
    ensures Abs(Wrap(d, length)) <= Abs(d - length * m as real)
  {
    var u := WrapRelative(d, length);
    var i := Images(d, length);
    var k := (i - m) as real;
    OtherImage(d, length, Wrap(d, length), i as real, m as real, u, k);
    HalfIsNearest(u, i - m);
    ScaledCloser(u, u + k, length);
  }

  lemma HalfIsNearest(u: real, n: int)
    requires -0.5 <= u < 0.5
    ensures Abs(u) <= Abs(u + n as real)
  {
  }

  lemma OtherImage(d: real, length: real, w: real, i: real, m: real, u: real, k: real)
    requires w == d - length * i && u * length == w && k == i - m
    ensures d - length * m == (u + k) * length
  {
    assert k * length == length * i - length * m;
    Distribute(u, k, length);
  }

  lemma Distribute(x: real, y: real, z: real)
    ensures (x + y) * z == x * z + y * z
  {
  }

  lemma AbsProduct(x: real, y: real)
    ensures Abs(x * y) == Abs(x) * Abs(y)
  {
    if x < 0.0 && y < 0.0 {
      assert (-x) * (-y) == x * y;
    } else if x < 0.0 {
      assert (-x) * y == -(x * y);
    } else if y < 0.0 {
      assert x * (-y) == -(x * y);
    }
  }

  lemma ProductMonotone(x: real, y: real, z: real)
    requires x <= y && 0.0 <= z
    ensures x * z <= y * z
  {
    assert (y - x) * z >= 0.0;
  }

  lemma ScaledCloser(x: real, y: real, z: real)
    requires Abs(x) <= Abs(y)
    ensures Abs(x * z) <= Abs(y * z)
  {
    AbsProduct(x, z);
    AbsProduct(y, z);
    ProductMonotone(Abs(x), Abs(y), Abs(z));
  }

  lemma SquareMonotone(x: real, y: real)
    requires Abs(x) <= Abs(y)
    ensures x * x <= y * y
  {
    assert x * x == Abs(x) * Abs(x) && y * y == Abs(y) * Abs(y);
    ProductMonotone(Abs(x), Abs(y), Abs(x));
    ProductMonotone(Abs(x), Abs(y), Abs(y));
  }

  /** The distance to the nearest image changes by no more than the displacement does. */
  lemma WrapLipschitz(d: real, e: real, length: real)
    requires length != 0.0
    ensures Abs(Abs(Wrap(d, length)) - Abs(Wrap(e, length))) <= Abs(d - e)
  {
    var m, k := Images(d, length), Images(e, length);
    WrapIsNearest(d, length, k);
    WrapIsNearest(e, length, m);
    assert d - length * k as real == Wrap(e, length) + (d - e);
    assert e - length * m as real == Wrap(d, length) - (d - e);
  }

  /** Away from a tie the wrap takes off the same number of lengths in a whole neighbourhood. */
  lemma WrapLocal(d: real, length: real) returns (delta: real)
    requires length != 0.0 && !IsTie(d, length)
    ensures delta > 0.0
    ensures forall e :: Abs(e - d) < delta ==> Wrap(e, length) == Wrap(d, length) + (e - d)
  {
    var u := WrapRelative(d, length);
    var m := Images(d, length);
    TieRelative(d, length, u);
    var gap := if 0.5 - u < u + 0.5 then 0.5 - u else u + 0.5;
    delta := gap * Abs(length);
    AbsProduct(gap, length);
    forall e | Abs(e - d) < delta
      ensures Wrap(e, length) == Wrap(d, length) + (e - d)
    {
      WrapWithin(d, e, length, u, gap);
    }
  }

  /** At a tie the wrap stays on its image to one side of the displacement and takes the opposite one to the other side. */
  lemma TieLocal(d: real, length: real) returns (delta: real)
    requires length != 0.0 && IsTie(d, length)
    ensures delta > 0.0
    ensures forall e :: Abs(e - d) < delta ==>
              Wrap(e, length) == (if (e - d) * length >= 0.0 then Wrap(d, length) else -Wrap(d, length)) + (e - d)
  {
    delta := Abs(length);
    forall e | Abs(e - d) < delta
      ensures Wrap(e, length) == (if (e - d) * length >= 0.0 then Wrap(d, length) else -Wrap(d, length)) + (e - d)
    {
      WrapBesideTie(d, e, length);
    }
  }

  lemma WrapBesideTie(d: real, e: real, length: real)
    requires length != 0.0 && IsTie(d, length) && Abs(e - d) < Abs(length)
    ensures Wrap(e, length) == (if (e - d) * length >= 0.0 then Wrap(d, length) else -Wrap(d, length)) + (e - d)
  {
    var u := WrapRelative(d, length);
    var m := Images(d, length);
    TieRelative(d, length, u);
    var v := StepRelative(e - d, length);
    assert e - length * m as real == u * length + v * length;
    if (e - d) * length >= 0.0 {
      assert u * length + v * length == (u + v) * length;
      WrapUnique(e, length, m, u + v);
    } else {
      assert length * (m - 1) as real == length * m as real - length;
      assert u * length + v * length + length == (u + v + 1.0) * length;
      WrapUnique(e, length, m - 1, u + v + 1.0);
    }
  }

  lemma StepRelative(t: real, length: real) returns (v: real)
    requires length != 0.0 && Abs(t) < Abs(length)
    ensures v * length == t && -1.0 < v < 1.0
    ensures t * length >= 0.0 <==> v >= 0.0
  {
    v := t / length;
    assert v * length == t;
    SignOfStep(v, t, length);
    WithinOne(v, t, length);
  }

  lemma SignOfStep(v: real, t: real, length: real)
    requires length != 0.0 && t == v * length
    ensures t * length >= 0.0 <==> v >= 0.0
  {
    var square := PositiveSquare(length);
    assert t * length == v * square;
    SignOfProduct(v, square);
  }

  lemma WithinOne(v: real, t: real, length: real)
    requires length != 0.0 && v * length == t && Abs(t) < Abs(length)
    ensures -1.0 < v < 1.0
  {
    AbsProduct(v, length);
    SmallerFactor(Abs(v), Abs(length), Abs(t));
  }

  lemma PositiveSquare(x: real) returns (square: real)
    requires x != 0.0
    ensures square == x * x && 0.0 < square
  {
    square := x * x;
    assert square == Abs(x) * Abs(x);
    var product := PositiveTimesPositive(Abs(x), Abs(x));
    assert product == square;
  }

  lemma PositiveTimesPositive(x: real, y: real) returns (product: real)
    requires 0.0 < x && 0.0 < y
    ensures product == x * y && 0.0 < product
  {
    product := x * y;
  }

  lemma SmallerFactor(x: real, z: real, product: real)
    requires 0.0 <= x && 0.0 < z && product == x * z && product < z
    ensures x < 1.0
  {
    if 1.0 <= x { ProductMonotone(1.0, x, z); }
  }

  lemma SignOfProduct(v: real, q: real)
    requires 0.0 < q
    ensures v * q >= 0.0 <==> v >= 0.0
  {
  }

  lemma WrapWithin(d: real, e: real, length: real, u: real, gap: real)
    requires length != 0.0 && u * length == Wrap(d, length)
    requires 0.0 < gap <= 0.5 - u && gap <= u + 0.5
    requires Abs(e - d) < gap * Abs(length)
    ensures Wrap(e, length) == Wrap(d, length) + (e - d)
  {
    var v := (e - d) / length;
    assert v * length == e - d;
    AbsProduct(v, length);
    if gap <= Abs(v) { ProductMonotone(gap, Abs(v), Abs(length)); }
    Distribute(u, v, length);
    WrapUnique(e, length, Images(d, length), u + v);
  }
}
