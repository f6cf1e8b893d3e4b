/**
 The Lennard-Jones pair energy along a path, and how the pairs and their sum
 depend on one coordinate of one atom.
 */
module LennardJonesGradient {
  import opened PairSums
  import MinimumImage
  import opened LennardJones
  import opened Calculus

  // ---------- One pair ----------

  /** The intermediate values of the pair energy along a path on which the squared distance is s. */
  datatype Path = Path(s: real -> real, i: real -> real, i2: real -> real, i3: real -> real,
                       a: real -> real, b: real -> real, t: real -> real, e: real -> real)
  {
    ghost predicate FollowsAt(p: Params, y: real)
    {
      && IsReciprocal(i, s, y) && IsProduct(i2, i, i, y) && IsProduct(i3, i2, i, y)
      && IsAffine(a, Pow6(p.psi), i3, 0.0, y) && IsAffine(b, 1.0, a, -1.0, y) && IsProduct(t, a, b, y)
      && IsAffine(e, 4.0 * p.u0, t, -p.cuttOffU, y)
    }

    ghost predicate Follows(p: Params)
    {
      forall y :: FollowsAt(p, y)
    }
  }

  /** The values of a path at x, and its slope d of the squared distance. */
  datatype Values = Values(s: real, i: real, a: real, d: real)

  ghost predicate ValuesAt(v: Values, p: Params, path: Path, x: real)
  {
    && v.s == path.s(x) > 0.0 && v.i == path.i(x) == Recip(v.s) && v.a == path.a(x) == Attraction(p, v.s)
    && path.i2(x) == v.i * v.i && path.b(x) == v.a - 1.0
  }

  lemma PathValues(p: Params, path: Path, x: real, d: real) returns (v: Values)
    requires path.FollowsAt(p, x) && path.s(x) > 0.0
    ensures ValuesAt(v, p, path, x) && v.d == d && path.e(x) == PairEnergy(p, v.s)
  {
    v := Values(path.s(x), path.i(x), path.a(x), d);
    assert v.i == Recip(v.s);
    assert path.i3(x) == v.i * v.i * v.i;
    assert v.a == Attraction(p, v.s);
    assert path.b(x) == v.a - 1.0;
    assert path.t(x) == v.a * (v.a - 1.0);
    EnergyValue(p, v.s, v.a, path.t(x), path.e(x));
  }

  lemma EnergyValue(p: Params, s: real, a: real, t: real, e: real)
    requires a == Attraction(p, s) && t == a * (a - 1.0) && e == 4.0 * p.u0 * t + -p.cuttOffU
    ensures e == PairEnergy(p, s)
  {
  }

  /** The slopes of the intermediate values. */
  datatype Slopes = Slopes(i: real, i2: real, i3: real, a: real, t: real)

  ghost predicate SlopeRules(k: Slopes, v: Values, p: Params)
  {
    && ReciprocalRule(k.i, v.d, v.i) && ProductRule(k.i2, v.i, v.i, k.i, k.i) && ProductRule(k.i3, v.i * v.i, v.i, k.i2, k.i)
    && ScaledSlope(k.a, Pow6(p.psi), k.i3) && ProductRule(k.t, v.a, v.a - 1.0, k.a, k.a)
  }

  lemma SlopesOf(v: Values, p: Params) returns (k: Slopes)
    ensures SlopeRules(k, v, p)
  {
    var i := -(v.d * (v.i * v.i));
    var i2 := i * v.i + v.i * i;
    var i3 := i2 * v.i + v.i * v.i * i;
    var a := Pow6(p.psi) * i3;
    var t := a * (v.a - 1.0) + v.a * a;
    k := Slopes(i, i2, i3, a, t);
  }

  /** 24 u0 a (2a - 1) / s times the slope of s is minus twice the slope of the pair energy. */
  ghost predicate ForceRule(m: real, scale: real, d: real)
  {
    2.0 * m == -(scale * d)
  }

  lemma SlopeIsForce(k: Slopes, v: Values, p: Params, m: real)
    requires SlopeRules(k, v, p) && v.i == Recip(v.s) && v.a == Attraction(p, v.s)
    requires ForceRule(m, ForceScale(p, v.s), v.d)
    ensures ScaledSlope(m, 4.0 * p.u0, k.t)
  {
    var cube := AttractionIs(p, v.s, v.i, v.a);
    AttractionIdentity(Pow6(p.psi), v.d, v.i, cube, k.i, k.i2, k.i3, k.a, v.a);
    var scale, well := ForceScaleIs(p, v.s, v.i, v.a);
    EnergyIdentity(p.u0, v.d, v.i, v.a, k.a, k.t, scale, well, m);
  }

  lemma AttractionIs(p: Params, s: real, i0: real, a0: real) returns (cube: real)
    requires i0 == Recip(s) && a0 == Attraction(p, s)
    ensures cube == i0 * i0 * i0 && ScaledSlope(a0, Pow6(p.psi), cube)
  {
    cube := i0 * i0 * i0;
  }

  lemma ForceScaleIs(p: Params, s: real, i0: real, a0: real) returns (scale: real, well: real)
    requires i0 == Recip(s) && a0 == Attraction(p, s)
    ensures scale == ForceScale(p, s) && well == a0 * (2.0 * a0 - 1.0) && scale == 24.0 * p.u0 * well * i0
  {
    scale, well := ForceScale(p, s), a0 * (2.0 * a0 - 1.0);
  }

  ghost predicate AttractionSlope(da: real, d: real, a0: real, i0: real)
  {
    da == -3.0 * (d * (a0 * i0))
  }

  lemma AttractionIdentity(c: real, d: real, i0: real, cube: real, d2: real, d3: real, d4: real, da: real, a0: real)
    requires ReciprocalRule(d2, d, i0) && ProductRule(d3, i0, i0, d2, d2) && ProductRule(d4, i0 * i0, i0, d3, d2)
    requires ScaledSlope(da, c, d4) && cube == i0 * i0 * i0 && ScaledSlope(a0, c, cube)
    ensures AttractionSlope(da, d, a0, i0)
  {
    var q := i0 * i0;
    assert d4 == 3.0 * (q * d2);
    assert q * d2 == -(d * (q * q));
    assert c * (d * (q * q)) == d * (c * (q * q));
    assert c * (q * q) == a0 * i0;
  }

  lemma EnergyIdentity(u0: real, d: real, i0: real, a0: real, da: real, d6: real, scale: real, well: real, m: real)
    requires AttractionSlope(da, d, a0, i0) && ProductRule(d6, a0, a0 - 1.0, da, da)
    requires well == a0 * (2.0 * a0 - 1.0) && scale == 24.0 * u0 * well * i0 && ForceRule(m, scale, d)
    ensures ScaledSlope(m, 4.0 * u0, d6)
  {
    var t := 2.0 * a0 - 1.0;
    assert d6 == da * t;
    assert da * t == -3.0 * (d * (a0 * t * i0));
    assert scale * d == 24.0 * (u0 * (d * (a0 * t * i0)));
    assert 4.0 * u0 * d6 == -12.0 * (u0 * (d * (a0 * t * i0)));
  }

  lemma ReciprocalSlopes(p: Params, path: Path, x: real, v: Values, k: Slopes)
    requires path.Follows(p) && ValuesAt(v, p, path, x) && SlopeRules(k, v, p) && HasSlope(path.s, x, v.d)
    ensures HasSlope(path.i3, x, k.i3)
  {
    forall y ensures IsReciprocal(path.i, path.s, y) && IsProduct(path.i2, path.i, path.i, y) && IsProduct(path.i3, path.i2, path.i, y)
    {
      assert path.FollowsAt(p, y);
    }
    SlopeOfReciprocal(path.s, path.i, x, v.d, k.i);
    SlopeOfProduct(path.i, path.i, path.i2, x, k.i, k.i, k.i2);
    SlopeOfProduct(path.i2, path.i, path.i3, x, k.i2, k.i, k.i3);
  }

  lemma WellSlopes(p: Params, path: Path, x: real, v: Values, k: Slopes)
    requires path.Follows(p) && ValuesAt(v, p, path, x) && SlopeRules(k, v, p) && HasSlope(path.i3, x, k.i3)
    ensures HasSlope(path.t, x, k.t)
  {
    forall y ensures IsAffine(path.a, Pow6(p.psi), path.i3, 0.0, y) && IsAffine(path.b, 1.0, path.a, -1.0, y) && IsProduct(path.t, path.a, path.b, y)
    {
      assert path.FollowsAt(p, y);
    }
    SlopeOfAffine(Pow6(p.psi), path.i3, 0.0, path.a, x, k.i3, k.a);
    assert ScaledSlope(k.a, 1.0, k.a);
    SlopeOfAffine(1.0, path.a, -1.0, path.b, x, k.a, k.a);
    SlopeOfProduct(path.a, path.b, path.t, x, k.a, k.a, k.t);
  }

  lemma EndSlope(p: Params, path: Path, x: real, c: real, shift: real, a: real, m: real)
    requires path.Follows(p) && c == 4.0 * p.u0 && shift == -p.cuttOffU
    requires HasSlope(path.t, x, a) && ScaledSlope(m, c, a)
    ensures HasSlope(path.e, x, m)
  {
    forall y ensures IsAffine(path.e, c, path.t, shift, y)
    {
      assert path.FollowsAt(p, y);
    }
    SlopeOfAffine(c, path.t, shift, path.e, x, a, m);
  }

  /** The energy of a pair along a path on which the squared distance has slope d. */
  lemma PairEnergySlope(p: Params, path: Path, x: real, d: real, m: real)
    requires path.Follows(p) && path.s(x) > 0.0 && HasSlope(path.s, x, d)
    requires ForceRule(m, ForceScale(p, path.s(x)), d)
    ensures HasSlope(path.e, x, m)
  {
    assert path.FollowsAt(p, x);
    var v := PathValues(p, path, x, d);
    var k := SlopesOf(v, p);
    ReciprocalSlopes(p, path, x, v, k);
    WellSlopes(p, path, x, v, k);
    SlopeIsForce(k, v, p, m);
    EndSlope(p, path, x, 4.0 * p.u0, -p.cuttOffU, k.t, m);
  }

  // ---------- One component of one displacement ----------

  function Component(w: real, sigma: real, x: real): real -> real { y => w + sigma * (y - x) }

  /** The squared distance from one component and what the other two contribute. */
  function SumOfSquares(w: real, rest: real): real { w * w + rest }

  function SquareAlong(w: real, sigma: real, rest: real, x: real): real -> real
  {
    SquareOf(Component(w, sigma, x), rest)
  }

  function SquareOf(line: real -> real, rest: real): real -> real { y => SumOfSquares(line(y), rest) }

  function RecipOf(f: real -> real): real -> real { y => Recip(f(y)) }

  function Times(f: real -> real, g: real -> real): real -> real { y => f(y) * g(y) }

  function Affine(c: real, f: real -> real, shift: real): real -> real { y => c * f(y) + shift }

  lemma RecipIsReciprocal(f: real -> real)
    ensures forall y :: IsReciprocal(RecipOf(f), f, y)
  {
  }

  lemma TimesIsProduct(f: real -> real, g: real -> real)
    ensures forall y :: IsProduct(Times(f, g), f, g, y)
  {
  }

  lemma AffineIsAffine(c: real, f: real -> real, shift: real)
    ensures forall y :: IsAffine(Affine(c, f, shift), c, f, shift, y)
  {
  }

  /** Every path of the squared distance extends to the pair energy. */
  lemma PathOver(p: Params, s: real -> real) returns (path: Path)
    ensures path.s == s && path.Follows(p) && forall y :: path.i(y) == Recip(s(y))
  {
    var i := RecipOf(s);
    var i2 := Times(i, i);
    var i3 := Times(i2, i);
    var a := Affine(Pow6(p.psi), i3, 0.0);
    var b := Affine(1.0, a, -1.0);
    var t := Times(a, b);
    path := Path(s, i, i2, i3, a, b, t, Affine(4.0 * p.u0, t, -p.cuttOffU));
    RecipIsReciprocal(s);
    TimesIsProduct(i, i);
    TimesIsProduct(i2, i);
    AffineIsAffine(Pow6(p.psi), i3, 0.0);
    AffineIsAffine(1.0, a, -1.0);
    TimesIsProduct(a, b);
    AffineIsAffine(4.0 * p.u0, t, -p.cuttOffU);
    forall y
      ensures path.FollowsAt(p, y)
    {
    }
  }

  lemma ForceRuleOf(p: Params, w: real, sigma: real, s: real, m: real) returns (d: real)
    requires m == -(sigma * PairForce(p, s, w))
    ensures ProductRule(d, w, w, sigma, sigma) && ForceRule(m, ForceScale(p, s), d)
  {
    d := SignedForce(ForceScale(p, s), w, sigma, m);
  }

  lemma SignedForce(scale: real, w: real, sigma: real, m: real) returns (d: real)
    requires m == -(sigma * (scale * w))
    ensures ProductRule(d, w, w, sigma, sigma) && ForceRule(m, scale, d)
  {
    d := sigma * w + w * sigma;
    assert scale * d == 2.0 * (sigma * (scale * w));
  }

  lemma SquareSlope(w: real, sigma: real, rest: real, x: real, d: real)
    requires ProductRule(d, w, w, sigma, sigma)
    ensures HasSlope(SquareAlong(w, sigma, rest, x), x, d)
    ensures SquareAlong(w, sigma, rest, x)(x) == SumOfSquares(w, rest)
  {
    var line := Component(w, sigma, x);
    ComponentIsLine(w, sigma, x);
    SlopeOfLine(line, x, sigma);
    TimesIsProduct(line, line);
    SlopeOfProduct(line, line, Times(line, line), x, sigma, sigma, d);
    SquareIsShift(line, rest);
    assert SquareAlong(w, sigma, rest, x)(x) == SumOfSquares(line(x), rest);
    SlopeOfShift(Times(line, line), rest, SquareAlong(w, sigma, rest, x), x, d);
  }

  lemma ComponentIsLine(w: real, sigma: real, x: real)
    ensures Component(w, sigma, x)(x) == w
    ensures forall y :: OnLine(Component(w, sigma, x), x, sigma, y)
  {
    assert Component(w, sigma, x)(x) == w;
    forall y ensures OnLine(Component(w, sigma, x), x, sigma, y) { }
  }

  lemma SquareIsShift(line: real -> real, rest: real)
    ensures forall y :: IsShift(SquareOf(line, rest), Times(line, line), rest, y)
  {
    forall y
      ensures IsShift(SquareOf(line, rest), Times(line, line), rest, y)
    {
      assert SquareOf(line, rest)(y) == SumOfSquares(line(y), rest);
      assert Times(line, line)(y) == line(y) * line(y);
    }
  }

  /** The pair energy as a function of one component of the displacement has slope minus the pair force. */
  lemma PairGradient(p: Params, w: real, sigma: real, rest: real, x: real, m: real) returns (path: Path)
    requires 0.0 < SumOfSquares(w, rest)
    requires m == -(sigma * PairForce(p, SumOfSquares(w, rest), w))
    ensures path.s == SquareAlong(w, sigma, rest, x) && path.Follows(p) && HasSlope(path.e, x, m)
  {
    var s := SquareAlong(w, sigma, rest, x);
    var d := ForceRuleOf(p, w, sigma, SumOfSquares(w, rest), m);
    SquareSlope(w, sigma, rest, x, d);
    path := PathOver(p, s);
    PairEnergySlope(p, path, x, d, m);
  }

  // ---------- A whole table ----------

  /** One entry, one row and the whole half of a table that depends on a coordinate. */
  function EntryAlong(e: real -> PairFn, i: int, j: int): real -> real { y => e(y)(i, j) }

  function RowAlong(e: real -> PairFn, i: int, lo: int, hi: int): real -> real { y => RowSum(e(y), i, lo, hi) }

  function HalfAlong(e: real -> PairFn, rows: int, n: int): real -> real { y => HalfSum(e(y), rows, n) }

  lemma {:induction false} RowSlope(e: real -> PairFn, d: PairFn, x: real, i: int, lo: int, hi: int)
    requires forall j :: lo <= j < hi ==> HasSlope(EntryAlong(e, i, j), x, d(i, j))
    ensures HasSlope(RowAlong(e, i, lo, hi), x, RowSum(d, i, lo, hi))
    decreases hi - lo
  {
    if lo < hi {
      RowSlope(e, d, x, i, lo, hi - 1);
      forall y
        ensures RowAlong(e, i, lo, hi)(y) == RowAlong(e, i, lo, hi - 1)(y) + EntryAlong(e, i, hi - 1)(y)
      {
        assert RowAlong(e, i, lo, hi)(y) == RowSum(e(y), i, lo, hi);
      }
      SlopeOfSum(RowAlong(e, i, lo, hi - 1), EntryAlong(e, i, hi - 1), RowAlong(e, i, lo, hi), x,
                 RowSum(d, i, lo, hi - 1), d(i, hi - 1));
    } else {
      forall y ensures RowAlong(e, i, lo, hi)(y) == 0.0 { assert RowAlong(e, i, lo, hi)(y) == RowSum(e(y), i, lo, hi); }
      SlopeOfConstant(RowAlong(e, i, lo, hi), x);
    }
  }

  lemma {:induction false} HalfSlope(e: real -> PairFn, d: PairFn, x: real, rows: int, n: int)
    requires forall i, j :: 0 <= i < rows && i < j < n ==> HasSlope(EntryAlong(e, i, j), x, d(i, j))
    ensures HasSlope(HalfAlong(e, rows, n), x, HalfSum(d, rows, n))
    decreases rows
  {
    if 0 < rows {
      HalfSlope(e, d, x, rows - 1, n);
      RowSlope(e, d, x, rows - 1, rows, n);
      forall y
        ensures HalfAlong(e, rows, n)(y) == HalfAlong(e, rows - 1, n)(y) + RowAlong(e, rows - 1, rows, n)(y)
      {
        assert HalfAlong(e, rows, n)(y) == HalfSum(e(y), rows, n);
      }
      SlopeOfSum(HalfAlong(e, rows - 1, n), RowAlong(e, rows - 1, rows, n), HalfAlong(e, rows, n), x,
                 HalfSum(d, rows - 1, n), RowSum(d, rows - 1, rows, n));
    } else {
      forall y ensures HalfAlong(e, rows, n)(y) == 0.0 { assert HalfAlong(e, rows, n)(y) == HalfSum(e(y), rows, n); }
      SlopeOfConstant(HalfAlong(e, rows, n), x);
    }
  }

  // ---------- Moving one coordinate ----------

  /** The configuration with coordinate c of atom k at y. */
  function Moved(cfg: ForceInput, k: nat, c: nat, y: real): (r: ForceInput)
    requires cfg.Valid() && k < cfg.nAtoms && c < 3
    ensures r.Valid()
  {
    cfg.(pos := cfg.pos[3 * k + c := y])
  }

  /** How a displacement from i to j changes when atom k moves: +1, -1 or not at all. */
  function Sign(i: nat, j: nat, k: nat): real
  {
    if i == j then 0.0 else if i == k then 1.0 else if j == k then -1.0 else 0.0
  }

  lemma MovedPair(cfg: ForceInput, k: nat, c: nat, y: real, i: nat, j: nat)
    requires cfg.Valid() && k < cfg.nAtoms && c < 3 && cfg.InRange(i, j) && i != j
    ensures forall a: nat :: a < 3 && a != c ==> Moved(cfg, k, c, y).Wrapped(i, j, a) == cfg.Wrapped(i, j, a)
    ensures Moved(cfg, k, c, y).Displacement(i, j, c) ==
            cfg.Displacement(i, j, c) + Sign(i, j, k) * (y - cfg.pos[3 * k + c])
  {
    var moved := Moved(cfg, k, c, y);
    forall a: nat | a < 3 && a != c
      ensures moved.Wrapped(i, j, a) == cfg.Wrapped(i, j, a)
    {
      assert moved.Displacement(i, j, a) == cfg.Displacement(i, j, a);
    }
  }

  /** What the other two components contribute to the squared distance. */
  function Rest(cfg: ForceInput, i: nat, j: nat, c: nat): real
    requires cfg.Valid() && cfg.InRange(i, j) && c < 3
  {
    OtherSquares(cfg.Wrapped(i, j, 0), cfg.Wrapped(i, j, 1), cfg.Wrapped(i, j, 2), c)
  }

  function OtherSquares(x: real, y: real, z: real, c: nat): real
  {
    if c == 0 then y * y + z * z else if c == 1 then x * x + z * z else x * x + y * y
  }

  lemma SquareSplits(cfg: ForceInput, i: nat, j: nat, c: nat)
    requires cfg.Valid() && cfg.InRange(i, j) && c < 3
    ensures cfg.Square(i, j) == SumOfSquares(cfg.Wrapped(i, j, c), Rest(cfg, i, j, c))
  {
    OneAndOthers(cfg.Wrapped(i, j, 0), cfg.Wrapped(i, j, 1), cfg.Wrapped(i, j, 2), c);
  }

  lemma OneAndOthers(x: real, y: real, z: real, c: nat)
    ensures SquaredNorm(x, y, z) ==
            SumOfSquares(if c == 0 then x else if c == 1 then y else z, OtherSquares(x, y, z, c))
  {
  }

  lemma RestUnmoved(cfg: ForceInput, k: nat, c: nat, y: real, i: nat, j: nat)
    requires cfg.Valid() && k < cfg.nAtoms && c < 3 && cfg.InRange(i, j) && i != j
    ensures Rest(Moved(cfg, k, c, y), i, j, c) == Rest(cfg, i, j, c)
  {
    MovedPair(cfg, k, c, y, i, j);
    var moved := Moved(cfg, k, c, y);
    SameOthers(cfg.Wrapped(i, j, 0), cfg.Wrapped(i, j, 1), cfg.Wrapped(i, j, 2),
               moved.Wrapped(i, j, 0), moved.Wrapped(i, j, 1), moved.Wrapped(i, j, 2), c);
  }

  lemma SameOthers(x: real, y: real, z: real, u: real, v: real, w: real, c: nat)
    requires c < 3 && (c == 0 || u == x) && (c == 1 || v == y) && (c == 2 || w == z)
    ensures OtherSquares(u, v, w, c) == OtherSquares(x, y, z, c)
  {
  }

  lemma MovedSquare(cfg: ForceInput, k: nat, c: nat, y: real, i: nat, j: nat)
    requires cfg.Valid() && k < cfg.nAtoms && c < 3 && cfg.InRange(i, j) && i != j
    ensures Moved(cfg, k, c, y).Square(i, j) == SumOfSquares(Moved(cfg, k, c, y).Wrapped(i, j, c), Rest(cfg, i, j, c))
  {
    RestUnmoved(cfg, k, c, y, i, j);
    SquareSplits(Moved(cfg, k, c, y), i, j, c);
  }

  // ---------- Near a configuration ----------

  /** The squared distance of a pair whose displacement along one direction is d. */
  function SquareAt(d: real, length: real, rest: real): real
    requires length != 0.0
  {
    SumOfSquares(MinimumImage.Wrap(d, length), rest)
  }

  /** Close to a displacement that is not exactly at the cutoff, the cutoff test gives the same answer. */
  lemma CutoffIsLocal(p: Params, d: real, length: real, rest: real) returns (delta: real)
    requires length != 0.0 && !AtCutoff(p, SquareAt(d, length, rest))
    ensures 0.0 < delta
    ensures forall e :: -delta < e - d < delta ==>
              (WithinCutoff(p, SquareAt(e, length, rest)) <==> WithinCutoff(p, SquareAt(d, length, rest)))
  {
    var s := SquareAt(d, length, rest);
    var slack := Slack(d, length);
    delta := CutoffClearance(p, s, slack);
    forall e | -delta < e - d < delta
      ensures WithinCutoff(p, SquareAt(e, length, rest)) <==> WithinCutoff(p, s)
    {
      var change := SquareMovesLittle(d, e, length, rest, Size(e - d), slack);
      SameSide(p, s, SquareAt(e, length, rest), Size(e - d), slack, delta, change);
    }
  }

  predicate AtCutoff(p: Params, s: real) { 0.0 < p.cuttOffR && s == p.cuttOffR * p.cuttOffR }

  function Slack(d: real, length: real): real
    requires length != 0.0
  {
    2.0 * Size(MinimumImage.Wrap(d, length)) + 1.0
  }

  /** How far a displacement may move before its squared distance could cross the cutoff. */
  ghost predicate Clears(p: Params, s: real, slack: real, delta: real)
  {
    0.0 < p.cuttOffR ==> delta * slack <= Size(p.cuttOffR * p.cuttOffR - s)
  }

  lemma CutoffClearance(p: Params, s: real, slack: real) returns (delta: real)
    requires 1.0 <= slack && !AtCutoff(p, s)
    ensures 0.0 < delta <= 1.0 && Clears(p, s, slack, delta)
  {
    if p.cuttOffR <= 0.0 {
      delta := 1.0;
    } else {
      delta := Clearance(Size(p.cuttOffR * p.cuttOffR - s), slack);
    }
  }

  lemma Clearance(gap: real, slack: real) returns (delta: real)
    requires 0.0 < gap && 1.0 <= slack
    ensures 0.0 < delta <= 1.0 && delta * slack <= gap
  {
    delta := Smaller(1.0, gap / slack);
    assert gap / slack * slack == gap;
    ScaleUp(delta, gap / slack, slack);
  }

  lemma SameSide(p: Params, s: real, t: real, z: real, slack: real, delta: real, change: real)
    requires 0.0 <= z < delta && 1.0 <= slack && Clears(p, s, slack, delta)
    requires change == z * slack && -change <= t - s <= change
    ensures WithinCutoff(p, t) <==> WithinCutoff(p, s)
  {
    if 0.0 < p.cuttOffR {
      Below(p.cuttOffR * p.cuttOffR, s, t, z, slack, delta, delta * slack, change);
    }
  }

  lemma Below(limit: real, s: real, t: real, z: real, slack: real, delta: real, reach: real, change: real)
    requires 0.0 <= z < delta && 1.0 <= slack && reach == delta * slack && reach <= Size(limit - s)
    requires change == z * slack && -change <= t - s <= change
    ensures t < limit <==> s < limit
  {
    PositiveProduct(delta - z, slack);
    assert change < reach;
  }

  /** Moving by z <= 1 changes the squared distance by at most z times 2 |w| + 1. */
  lemma SquareMovesLittle(d: real, e: real, length: real, rest: real, z: real, slack: real) returns (change: real)
    requires length != 0.0 && z == Size(e - d) && z <= 1.0 && slack == Slack(d, length)
    ensures change == z * slack
    ensures -change <= SquareAt(e, length, rest) - SquareAt(d, length, rest) <= change
  {
    SizesMoveLittle(d, e, length, z);
    change := SumsDiffer(MinimumImage.Wrap(d, length), MinimumImage.Wrap(e, length), rest, z, slack);
  }

  lemma SizesMoveLittle(d: real, e: real, length: real, z: real)
    requires length != 0.0 && z == Size(e - d)
    ensures -z <= Size(MinimumImage.Wrap(e, length)) - Size(MinimumImage.Wrap(d, length)) <= z
  {
    MinimumImage.WrapLipschitz(d, e, length);
  }

  lemma SumsDiffer(w: real, v: real, rest: real, z: real, slack: real) returns (change: real)
    requires -z <= Size(v) - Size(w) <= z && 0.0 <= z <= 1.0 && slack == 2.0 * Size(w) + 1.0
    ensures change == z * slack && -change <= SumOfSquares(v, rest) - SumOfSquares(w, rest) <= change
  {
    change := z * slack;
    SquaresDiffer(Size(w), Size(v), z, slack);
    SizeSquared(w);
    SizeSquared(v);
  }

  lemma SizeSquared(w: real)
    ensures Size(w) * Size(w) == w * w
  {
  }

  lemma SquaresDiffer(a: real, b: real, z: real, slack: real)
    requires 0.0 <= a && 0.0 <= b && -z <= b - a <= z && 0.0 <= z <= 1.0 && slack == 2.0 * a + 1.0
    ensures -(z * slack) <= b * b - a * a <= z * slack
  {
    ProductBound(b - a, b + a, z, slack);
    assert (b - a) * (b + a) == b * b - a * a;
  }

  /** The energy as a function of coordinate c of atom k. */
  ghost function EnergyAlong(p: Params, cfg: ForceInput, k: nat, c: nat): real -> real
    requires cfg.Valid() && k < cfg.nAtoms && c < 3
  {
    HalfAlong(TableAlong(p, cfg, k, c), cfg.nAtoms, cfg.nAtoms)
  }

  ghost function TableAlong(p: Params, cfg: ForceInput, k: nat, c: nat): real -> PairFn
    requires cfg.Valid() && k < cfg.nAtoms && c < 3
  {
    y => EnergyFn(p, Moved(cfg, k, c, y))
  }

  lemma EnergyAlongIsEnergy(p: Params, cfg: ForceInput, k: nat, c: nat, y: real)
    requires cfg.Valid() && k < cfg.nAtoms && c < 3
    ensures EnergyAlong(p, cfg, k, c)(y) == Energy(p, Moved(cfg, k, c, y))
  {
  }

  /** The slope of the energy of the pair (i, j) as coordinate c of atom k moves. */
  function PairSlope(f: PairFn, i: int, j: int, k: int): real
  {
    if i == k then -f(i, j) else if j == k then f(i, j) else 0.0
  }

  /** A pair without atom k does not change. */
  lemma UnmovedPair(p: Params, cfg: ForceInput, k: nat, c: nat, i: nat, j: nat)
    requires cfg.Valid() && k < cfg.nAtoms && c < 3 && i < j < cfg.nAtoms && i != k && j != k
    ensures HasSlope(EntryAlong(TableAlong(p, cfg, k, c), i, j), cfg.pos[3 * k + c], 0.0)
  {
    var e := EntryAlong(TableAlong(p, cfg, k, c), i, j);
    forall y
      ensures e(y) == EnergyFn(p, cfg)(i, j)
    {
      UnmovedEnergy(p, cfg, k, c, y, i, j);
    }
    SlopeOfConstant(e, cfg.pos[3 * k + c]);
  }

  lemma UnmovedEnergy(p: Params, cfg: ForceInput, k: nat, c: nat, y: real, i: nat, j: nat)
    requires cfg.Valid() && k < cfg.nAtoms && c < 3 && i < j < cfg.nAtoms && i != k && j != k
    ensures EnergyFn(p, Moved(cfg, k, c, y))(i, j) == EnergyFn(p, cfg)(i, j)
  {
    UnmovedSquare(cfg, k, c, y, i, j);
  }

  lemma UnmovedSquare(cfg: ForceInput, k: nat, c: nat, y: real, i: nat, j: nat)
    requires cfg.Valid() && k < cfg.nAtoms && c < 3 && i < j < cfg.nAtoms && i != k && j != k
    ensures Moved(cfg, k, c, y).Square(i, j) == cfg.Square(i, j)
  {
    MovedSquare(cfg, k, c, y, i, j);
    UnmovedComponent(cfg, k, c, y, i, j);
    SquareSplits(cfg, i, j, c);
  }

  lemma UnmovedComponent(cfg: ForceInput, k: nat, c: nat, y: real, i: nat, j: nat)
    requires cfg.Valid() && k < cfg.nAtoms && c < 3 && i < j < cfg.nAtoms && i != k && j != k
    ensures Moved(cfg, k, c, y).Wrapped(i, j, c) == cfg.Wrapped(i, j, c)
  {
    assert Moved(cfg, k, c, y).Displacement(i, j, c) == cfg.Displacement(i, j, c);
  }

  lemma MovedComponent(cfg: ForceInput, k: nat, c: nat, y: real, i: nat, j: nat)
    requires cfg.Valid() && k < cfg.nAtoms && c < 3 && i < j < cfg.nAtoms
    ensures var d := cfg.Displacement(i, j, c) + Sign(i, j, k) * (y - cfg.pos[3 * k + c]);
            Moved(cfg, k, c, y).Wrapped(i, j, c) == MinimumImage.Wrap(d, cfg.Length(c))
  {
    MovedPair(cfg, k, c, y, i, j);
  }

  /** The displacement d when a coordinate that enters it with sign sigma moves from x to y. */
  function Displaced(d: real, sigma: real, x: real, y: real): real { d + sigma * (y - x) }

  /** e is the energy of one pair as a function of a coordinate that enters its displacement with sign sigma. */
  ghost predicate IsPairEnergy(e: real -> real, p: Params, d: real, length: real, rest: real, sigma: real, x: real, y: real)
    requires length != 0.0
  {
    var s := SquareAt(Displaced(d, sigma, x, y), length, rest);
    e(y) == if WithinCutoff(p, s) then PairEnergy(p, s) else 0.0
  }

  lemma MovedEnergy(p: Params, cfg: ForceInput, k: nat, c: nat, i: nat, j: nat, y: real)
    requires cfg.Valid() && k < cfg.nAtoms && c < 3 && i < j < cfg.nAtoms
    ensures IsPairEnergy(EntryAlong(TableAlong(p, cfg, k, c), i, j), p, cfg.Displacement(i, j, c), cfg.Length(c),
                         Rest(cfg, i, j, c), Sign(i, j, k), cfg.pos[3 * k + c], y)
  {
    MovedSquare(cfg, k, c, y, i, j);
    MovedComponent(cfg, k, c, y, i, j);
    var e, moved := EntryAlong(TableAlong(p, cfg, k, c), i, j), Moved(cfg, k, c, y);
    assert e(y) == EnergyFn(p, moved)(i, j);
  }

  lemma Step(d: real, sigma: real, x: real, y: real, delta: real)
    requires (sigma == 1.0 || sigma == -1.0) && x - delta < y < x + delta
    ensures -delta < Displaced(d, sigma, x, y) - d < delta
  {
  }

  /** Near x the squared distance of the path stays positive. */
  lemma StaysApart(w: real, sigma: real, rest: real, x: real) returns (delta: real)
    requires 0.0 < SumOfSquares(w, rest)
    ensures 0.0 < delta
    ensures forall y :: x - delta < y < x + delta ==> 0.0 < SquareAlong(w, sigma, rest, x)(y)
  {
    var s := SquareAlong(w, sigma, rest, x);
    var d := DoubleProduct(w, sigma);
    SquareSlope(w, sigma, rest, x, d);
    var k, range := Constants(s, x, d, 1.0);
    var big := Largest(d, k, 1.0, 0.0, 0.0, 0.0);
    var near := Neighbourhood(s(x), big);
    delta := Smaller(range, near);
    forall y | x - delta < y < x + delta
      ensures 0.0 < s(y)
    {
      var u := y - x;
      assert TangentAt(s, x, d, k, u);
      assert x + u == y;
      StaysPositive(s(y), s(x), d, k, u, big, near);
    }
  }

  lemma DoubleProduct(w: real, sigma: real) returns (d: real)
    ensures ProductRule(d, w, w, sigma, sigma)
  {
    d := sigma * w + w * sigma;
  }

  lemma PathEnergyAt(p: Params, path: Path, w: real, sigma: real, rest: real, x: real, y: real) returns (z: real)
    requires path.s == SquareAlong(w, sigma, rest, x) && path.Follows(p) && 0.0 < path.s(y)
    ensures z == w + sigma * (y - x) && path.e(y) == PairEnergy(p, SumOfSquares(z, rest))
  {
    z := w + sigma * (y - x);
    assert path.FollowsAt(p, y);
    var values := PathValues(p, path, y, 0.0);
    SquareAlongAt(w, sigma, rest, x, y);
  }

  lemma SquareAlongAt(w: real, sigma: real, rest: real, x: real, y: real)
    ensures SquareAlong(w, sigma, rest, x)(y) == SumOfSquares(w + sigma * (y - x), rest)
  {
    assert Component(w, sigma, x)(y) == w + sigma * (y - x);
  }
}
