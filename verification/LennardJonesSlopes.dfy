/**
 Exactly when the energy of a pair has a slope, from what the wrap and the cutoff
 test do to the left and to the right of a coordinate; and the forces of the
 Lennard-Jones loop as the negative gradient of its energy.
 */
module LennardJonesSlopes {
  import opened PairSums
  import MinimumImage
  import opened LennardJones
  import opened Calculus
  import opened LennardJonesGradient
  import Symmetry = LennardJonesSymmetry

  // ---------- One side of a coordinate ----------

  /** To one side of x: the component of the displacement carried on from x, and whether the pair counts there. */
  datatype Side = Side(comp: real, inside: bool)

  function EnergyOnSide(p: Params, side: Side, rest: real, sigma: real, x: real, y: real): real
  {
    if side.inside then PairEnergy(p, SumOfSquares(Component(side.comp, sigma, x)(y), rest)) else 0.0
  }

  /** Value and slope at x of the energy carried on from this side. */
  function SideValue(p: Params, side: Side, rest: real): real
  {
    if side.inside then PairEnergy(p, SumOfSquares(side.comp, rest)) else 0.0
  }

  function SideSlope(p: Params, side: Side, rest: real, sigma: real): real
  {
    if side.inside then -(sigma * PairForce(p, SumOfSquares(side.comp, rest), side.comp)) else 0.0
  }

  ghost predicate OnSide(e: real -> real, p: Params, side: Side, rest: real, sigma: real, x: real, right: bool, delta: real)
  {
    forall y :: Beside(right, x, delta, y) ==> e(y) == EnergyOnSide(p, side, rest, sigma, x, y)
  }

  /** The energy on a side extends to a function with a slope at x. */
  lemma SideFunction(p: Params, side: Side, rest: real, sigma: real, x: real) returns (g: real -> real, a: real, delta: real)
    requires side.inside ==> 0.0 < SumOfSquares(side.comp, rest)
    ensures HasSlope(g, x, a) && 0.0 < delta && a == SideSlope(p, side, rest, sigma) && g(x) == SideValue(p, side, rest)
    ensures forall y :: x - delta < y < x + delta ==> g(y) == EnergyOnSide(p, side, rest, sigma, x, y)
  {
    a := SideSlope(p, side, rest, sigma);
    if side.inside {
      g, delta := InsideFunction(p, side.comp, rest, sigma, x, a);
    } else {
      g, delta := y => 0.0, 1.0;
      SlopeOfConstant(g, x);
    }
  }

  lemma InsideFunction(p: Params, comp: real, rest: real, sigma: real, x: real, a: real) returns (g: real -> real, delta: real)
    requires 0.0 < SumOfSquares(comp, rest) && a == -(sigma * PairForce(p, SumOfSquares(comp, rest), comp))
    ensures HasSlope(g, x, a) && 0.0 < delta && g(x) == PairEnergy(p, SumOfSquares(comp, rest))
    ensures forall y :: x - delta < y < x + delta ==> g(y) == PairEnergy(p, SumOfSquares(Component(comp, sigma, x)(y), rest))
  {
    var path := PairGradient(p, comp, sigma, rest, x, a);
    delta := StaysApart(comp, sigma, rest, x);
    g := path.e;
    forall y | x - delta < y < x + delta
      ensures g(y) == PairEnergy(p, SumOfSquares(Component(comp, sigma, x)(y), rest))
    {
      ValueOnPath(p, path, comp, rest, sigma, x, y);
    }
    ValueOnPath(p, path, comp, rest, sigma, x, x);
    ComponentIsLine(comp, sigma, x);
  }

  lemma ValueOnPath(p: Params, path: Path, comp: real, rest: real, sigma: real, x: real, y: real)
    requires path.s == SquareAlong(comp, sigma, rest, x) && path.Follows(p) && 0.0 < path.s(y)
    ensures path.e(y) == PairEnergy(p, SumOfSquares(Component(comp, sigma, x)(y), rest))
  {
    var z := PathEnergyAt(p, path, comp, sigma, rest, x, y);
    assert Component(comp, sigma, x)(y) == z;
  }

  /** A pair energy with known sides has a slope exactly when both sides agree with its value and with each other. */
  lemma SlopeOfSides(e: real -> real, p: Params, r: Side, l: Side, rest: real, sigma: real, x: real, m: real, delta: real)
    requires 0.0 < delta && OnSide(e, p, r, rest, sigma, x, true, delta) && OnSide(e, p, l, rest, sigma, x, false, delta)
    requires (r.inside ==> 0.0 < SumOfSquares(r.comp, rest)) && (l.inside ==> 0.0 < SumOfSquares(l.comp, rest))
    ensures HasSlope(e, x, m) <==>
              && e(x) == SideValue(p, r, rest) == SideValue(p, l, rest)
              && m == SideSlope(p, r, rest, sigma) == SideSlope(p, l, rest, sigma)
  {
    var g, a, near := SideFunction(p, r, rest, sigma, x);
    var h, b, far := SideFunction(p, l, rest, sigma, x);
    var within := Smaller(delta, Smaller(near, far));
    forall y | Beside(true, x, within, y)
      ensures e(y) == g(y)
    {
      assert Beside(true, x, delta, y) && x - near < y < x + near;
    }
    forall y | Beside(false, x, within, y)
      ensures e(y) == h(y)
    {
      assert Beside(false, x, delta, y) && x - far < y < x + far;
    }
    SlopeFromSides(e, g, h, x, a, b, m, within);
  }

  // ---------- What the wrap does on each side ----------

  function WrapAt(d: real, length: real, sigma: real, x: real, y: real): real
    requires length != 0.0
  {
    MinimumImage.Wrap(Displaced(d, sigma, x, y), length)
  }

  /** The wrapped component near x, to the given side. */
  ghost predicate WrapsTo(d: real, length: real, sigma: real, x: real, comp: real, right: bool, delta: real)
    requires length != 0.0
  {
    forall y :: Beside(right, x, delta, y) ==> WrapAt(d, length, sigma, x, y) == Component(comp, sigma, x)(y)
  }

  /** Both sides keep the component of x, except at a tie, where one of them has the opposite one. */
  lemma WrapSides(d: real, length: real, sigma: real, x: real, w: real) returns (wr: real, wl: real, delta: real)
    requires length != 0.0 && (sigma == 1.0 || sigma == -1.0) && w == MinimumImage.Wrap(d, length)
    ensures 0.0 < delta && WrapsTo(d, length, sigma, x, wr, true, delta) && WrapsTo(d, length, sigma, x, wl, false, delta)
    ensures MinimumImage.IsTie(d, length) ==> wr == (if sigma * length > 0.0 then w else -w) && wl == -wr
    ensures !MinimumImage.IsTie(d, length) ==> wr == wl == w
  {
    if MinimumImage.IsTie(d, length) {
      delta := MinimumImage.TieLocal(d, length);
      wr := if sigma * length > 0.0 then w else -w;
      wl := -wr;
      forall y | Beside(true, x, delta, y) ensures WrapAt(d, length, sigma, x, y) == Component(wr, sigma, x)(y) {
        TieStep(d, length, sigma, x, y, w, delta, true);
      }
      forall y | Beside(false, x, delta, y) ensures WrapAt(d, length, sigma, x, y) == Component(wl, sigma, x)(y) {
        TieStep(d, length, sigma, x, y, w, delta, false);
      }
    } else {
      delta := MinimumImage.WrapLocal(d, length);
      wr, wl := w, w;
      forall y | x - delta < y < x + delta ensures WrapAt(d, length, sigma, x, y) == Component(w, sigma, x)(y) {
        PlainStep(d, length, sigma, x, y, w, delta);
      }
    }
  }

  lemma PlainStep(d: real, length: real, sigma: real, x: real, y: real, w: real, delta: real)
    requires length != 0.0 && (sigma == 1.0 || sigma == -1.0) && x - delta < y < x + delta
    requires forall f :: MinimumImage.Abs(f - d) < delta ==> MinimumImage.Wrap(f, length) == w + (f - d)
    ensures WrapAt(d, length, sigma, x, y) == Component(w, sigma, x)(y)
  {
    var f := Displaced(d, sigma, x, y);
    Step(d, sigma, x, y, delta);
    assert MinimumImage.Abs(f - d) < delta;
  }

  lemma TieStep(d: real, length: real, sigma: real, x: real, y: real, w: real, delta: real, right: bool)
    requires length != 0.0 && (sigma == 1.0 || sigma == -1.0) && Beside(right, x, delta, y)
    requires forall f :: MinimumImage.Abs(f - d) < delta ==>
               MinimumImage.Wrap(f, length) == (if (f - d) * length >= 0.0 then w else -w) + (f - d)
    ensures WrapAt(d, length, sigma, x, y) == Component(if (sigma * length > 0.0) == right then w else -w, sigma, x)(y)
  {
    var f := Displaced(d, sigma, x, y);
    Step(d, sigma, x, y, delta);
    assert MinimumImage.Abs(f - d) < delta;
    SideOfTie(f - d, y - x, sigma, length, right);
  }

  lemma SideOfTie(t: real, u: real, sigma: real, length: real, right: bool)
    requires length != 0.0 && (sigma == 1.0 || sigma == -1.0) && t == sigma * u && (if right then 0.0 < u else u < 0.0)
    ensures t * length >= 0.0 <==> (sigma * length > 0.0) == right
  {
    var q := sigma * length;
    assert t * length == u * q;
    assert q != 0.0;
    if right {
      SignOf(u, q);
    } else {
      SignOf(-u, q);
      assert (-u) * q == -(u * q);
    }
  }

  lemma SignOf(u: real, q: real)
    requires 0.0 < u && q != 0.0
    ensures 0.0 < u * q <==> 0.0 < q
    ensures u * q < 0.0 <==> q < 0.0
  {
  }

  // ---------- What the cutoff test does on each side ----------

  /** The cutoff test near x, to the given side. */
  ghost predicate TestsTo(p: Params, comp: real, rest: real, sigma: real, x: real, inside: bool, right: bool, delta: real)
  {
    forall y :: Beside(right, x, delta, y) ==> (WithinCutoff(p, SumOfSquares(Component(comp, sigma, x)(y), rest)) <==> inside)
  }

  /** From exactly the cutoff the pair comes inside on the side towards which the component shrinks. */
  lemma CutoffSide(p: Params, comp: real, rest: real, sigma: real, x: real, right: bool) returns (inside: bool, delta: real)
    requires (sigma == 1.0 || sigma == -1.0) && AtCutoff(p, SumOfSquares(comp, rest))
    ensures 0.0 < delta && TestsTo(p, comp, rest, sigma, x, inside, right, delta)
    ensures inside <==> if right then sigma * comp < 0.0 else 0.0 < sigma * comp
  {
    inside := if right then sigma * comp < 0.0 else 0.0 < sigma * comp;
    delta := if comp == 0.0 then 1.0 else Size(comp);
    forall y | Beside(right, x, delta, y)
      ensures WithinCutoff(p, SumOfSquares(Component(comp, sigma, x)(y), rest)) <==> inside
    {
      var t := sigma * (y - x);
      assert Component(comp, sigma, x)(y) == comp + t;
      Shrinks(comp, t, rest);
      assert t == y - x || t == x - y;
      assert sigma * comp == comp || sigma * comp == -comp;
    }
  }

  /** A small step t lessens the square exactly if it is against the component. */
  lemma Shrinks(comp: real, t: real, rest: real)
    requires t != 0.0 && (comp != 0.0 ==> Size(t) < Size(comp))
    ensures SumOfSquares(comp + t, rest) < SumOfSquares(comp, rest) <==> (0.0 < comp && t < 0.0) || (comp < 0.0 && 0.0 < t)
  {
    var change := t * (2.0 * comp + t);
    assert (comp + t) * (comp + t) == comp * comp + change;
    if 0.0 < 2.0 * comp + t {
      SignOf(2.0 * comp + t, t);
    } else {
      SignOf(-(2.0 * comp + t), t);
      assert (-(2.0 * comp + t)) * t == -change;
    }
  }

  // ---------- Both together ----------

  lemma JoinSide(e: real -> real, p: Params, d: real, length: real, rest: real, sigma: real, x: real,
                 comp: real, inside: bool, right: bool, delta: real)
    requires length != 0.0 && forall y :: IsPairEnergy(e, p, d, length, rest, sigma, x, y)
    requires WrapsTo(d, length, sigma, x, comp, right, delta) && TestsTo(p, comp, rest, sigma, x, inside, right, delta)
    ensures OnSide(e, p, Side(comp, inside), rest, sigma, x, right, delta)
  {
    forall y | Beside(right, x, delta, y)
      ensures e(y) == EnergyOnSide(p, Side(comp, inside), rest, sigma, x, y)
    {
      assert IsPairEnergy(e, p, d, length, rest, sigma, x, y);
      assert WrapAt(d, length, sigma, x, y) == Component(comp, sigma, x)(y);
    }
  }

  /** Off the cutoff the test does not change near x. */
  lemma SteadySide(p: Params, d: real, length: real, rest: real, sigma: real, x: real, comp: real, right: bool, near: real, delta: real)
    requires length != 0.0 && (sigma == 1.0 || sigma == -1.0) && 0.0 < delta <= near
    requires WrapsTo(d, length, sigma, x, comp, right, delta)
    requires forall f :: -near < f - d < near ==>
               (WithinCutoff(p, SquareAt(f, length, rest)) <==> WithinCutoff(p, SquareAt(d, length, rest)))
    ensures TestsTo(p, comp, rest, sigma, x, WithinCutoff(p, SquareAt(d, length, rest)), right, delta)
  {
    forall y | Beside(right, x, delta, y)
      ensures WithinCutoff(p, SumOfSquares(Component(comp, sigma, x)(y), rest)) <==> WithinCutoff(p, SquareAt(d, length, rest))
    {
      var f := StepTo(d, length, sigma, x, y, near);
      SquareOfImage(f, Component(comp, sigma, x)(y), length, rest);
      SameTest(p, SquareAt(f, length, rest), SumOfSquares(Component(comp, sigma, x)(y), rest));
    }
  }

  lemma StepTo(d: real, length: real, sigma: real, x: real, y: real, near: real) returns (f: real)
    requires length != 0.0 && (sigma == 1.0 || sigma == -1.0) && x - near < y < x + near
    ensures -near < f - d < near && MinimumImage.Wrap(f, length) == WrapAt(d, length, sigma, x, y)
  {
    f := Displaced(d, sigma, x, y);
    Step(d, sigma, x, y, near);
  }

  lemma SquareOfImage(f: real, comp: real, length: real, rest: real)
    requires length != 0.0 && MinimumImage.Wrap(f, length) == comp
    ensures SquareAt(f, length, rest) == SumOfSquares(comp, rest)
  {
  }

  lemma SameTest(p: Params, s: real, t: real)
    requires s == t
    ensures WithinCutoff(p, s) <==> WithinCutoff(p, t)
  {
  }

  /** The sides of a pair: which image, and inside or outside. */
  ghost predicate SidesOf(p: Params, s: real, w: real, sigma: real, length: real, tie: bool, r: Side, l: Side)
  {
    && (if tie then r.comp == (if sigma * length > 0.0 then w else -w) && l.comp == -r.comp else r.comp == l.comp == w)
    && (if AtCutoff(p, s) then (r.inside <==> sigma * r.comp < 0.0) && (l.inside <==> 0.0 < sigma * l.comp)
        else r.inside == l.inside == WithinCutoff(p, s))
  }

  lemma Sides(e: real -> real, p: Params, d: real, length: real, rest: real, sigma: real, x: real, w: real)
    returns (r: Side, l: Side, delta: real)
    requires length != 0.0 && (sigma == 1.0 || sigma == -1.0) && w == MinimumImage.Wrap(d, length)
    requires forall y :: IsPairEnergy(e, p, d, length, rest, sigma, x, y)
    ensures 0.0 < delta && OnSide(e, p, r, rest, sigma, x, true, delta) && OnSide(e, p, l, rest, sigma, x, false, delta)
    ensures SidesOf(p, SumOfSquares(w, rest), w, sigma, length, MinimumImage.IsTie(d, length), r, l)
  {
    var wr, wl, near := WrapSides(d, length, sigma, x, w);
    var ri, li, within := TestSides(p, d, length, rest, sigma, x, w, wr, wl, near);
    delta := Smaller(near, within);
    r, l := Side(wr, ri), Side(wl, li);
    Narrower(p, d, length, rest, sigma, x, wr, ri, true, near, within, delta);
    Narrower(p, d, length, rest, sigma, x, wl, li, false, near, within, delta);
    JoinSide(e, p, d, length, rest, sigma, x, wr, ri, true, delta);
    JoinSide(e, p, d, length, rest, sigma, x, wl, li, false, delta);
  }

  lemma Narrower(p: Params, d: real, length: real, rest: real, sigma: real, x: real, comp: real, inside: bool, right: bool,
                 near: real, within: real, delta: real)
    requires length != 0.0 && delta <= near && delta <= within
    requires WrapsTo(d, length, sigma, x, comp, right, near) && TestsTo(p, comp, rest, sigma, x, inside, right, within)
    ensures WrapsTo(d, length, sigma, x, comp, right, delta) && TestsTo(p, comp, rest, sigma, x, inside, right, delta)
  {
    forall y | Beside(right, x, delta, y)
      ensures Beside(right, x, near, y) && Beside(right, x, within, y)
    {
    }
  }

  lemma TestSides(p: Params, d: real, length: real, rest: real, sigma: real, x: real, w: real, wr: real, wl: real, near: real)
    returns (ri: bool, li: bool, delta: real)
    requires length != 0.0 && (sigma == 1.0 || sigma == -1.0) && w == MinimumImage.Wrap(d, length) && 0.0 < near
    requires (wr == w || wr == -w) && (wl == w || wl == -w)
    requires WrapsTo(d, length, sigma, x, wr, true, near) && WrapsTo(d, length, sigma, x, wl, false, near)
    ensures 0.0 < delta && TestsTo(p, wr, rest, sigma, x, ri, true, delta) && TestsTo(p, wl, rest, sigma, x, li, false, delta)
    ensures if AtCutoff(p, SumOfSquares(w, rest)) then (ri <==> sigma * wr < 0.0) && (li <==> 0.0 < sigma * wl)
            else ri == li == WithinCutoff(p, SumOfSquares(w, rest))
  {
    OppositeSquares(w, rest);
    if AtCutoff(p, SumOfSquares(w, rest)) {
      var d1, d2;
      ri, d1 := CutoffSide(p, wr, rest, sigma, x, true);
      li, d2 := CutoffSide(p, wl, rest, sigma, x, false);
      delta := Smaller(d1, d2);
      TestNarrower(p, wr, rest, sigma, x, ri, true, d1, delta);
      TestNarrower(p, wl, rest, sigma, x, li, false, d2, delta);
    } else {
      var steady := CutoffIsLocal(p, d, length, rest);
      delta := Smaller(near, steady);
      WrapNarrower(d, length, sigma, x, wr, true, near, delta);
      WrapNarrower(d, length, sigma, x, wl, false, near, delta);
      SteadySide(p, d, length, rest, sigma, x, wr, true, steady, delta);
      SteadySide(p, d, length, rest, sigma, x, wl, false, steady, delta);
      ri, li := WithinCutoff(p, SumOfSquares(w, rest)), WithinCutoff(p, SumOfSquares(w, rest));
    }
  }

  lemma OppositeSquares(w: real, rest: real)
    ensures SumOfSquares(-w, rest) == SumOfSquares(w, rest)
  {
    assert (-w) * (-w) == w * w;
  }

  lemma TestNarrower(p: Params, comp: real, rest: real, sigma: real, x: real, inside: bool, right: bool, within: real, delta: real)
    requires delta <= within && TestsTo(p, comp, rest, sigma, x, inside, right, within)
    ensures TestsTo(p, comp, rest, sigma, x, inside, right, delta)
  {
    forall y | Beside(right, x, delta, y) ensures Beside(right, x, within, y) { }
  }

  lemma WrapNarrower(d: real, length: real, sigma: real, x: real, comp: real, right: bool, near: real, delta: real)
    requires length != 0.0 && delta <= near && WrapsTo(d, length, sigma, x, comp, right, near)
    ensures WrapsTo(d, length, sigma, x, comp, right, delta)
  {
    forall y | Beside(right, x, delta, y) ensures Beside(right, x, near, y) { }
  }

  // ---------- Exactly when a pair has a slope ----------

  /**
   A pair at squared distance s with component w has a slope along that component: inside the cutoff unless it is at a tie and
   exerts a force; at the cutoff only if it cannot come inside, or comes inside with neither energy nor force; outside always.
   */
  predicate Smooth(p: Params, s: real, w: real, tie: bool)
  {
    if AtCutoff(p, s) then w == 0.0 || (PairEnergy(p, s) == 0.0 && ForceScale(p, s) == 0.0)
    else WithinCutoff(p, s) && tie ==> ForceScale(p, s) == 0.0
  }

  function SlopeHere(p: Params, s: real, w: real, sigma: real): real
  {
    if WithinCutoff(p, s) then -(sigma * PairForce(p, s, w)) else 0.0
  }

  lemma SignedForceZero(scale: real, w: real, sigma: real)
    requires sigma == 1.0 || sigma == -1.0
    ensures -(sigma * (scale * w)) == 0.0 <==> scale == 0.0 || w == 0.0
    ensures -(sigma * (scale * -w)) == sigma * (scale * w)
  {
    if scale != 0.0 && scale * w == 0.0 { assert scale * w / scale == w; }
    assert scale * -w == -(scale * w);
  }

  /** Both sides agree exactly in the smooth cases. */
  lemma SidesAgree(p: Params, s: real, w: real, rest: real, sigma: real, length: real, tie: bool, r: Side, l: Side, value: real, m: real)
    requires (sigma == 1.0 || sigma == -1.0) && length != 0.0 && (tie ==> 2.0 * w == -length)
    requires s == SumOfSquares(w, rest) && SidesOf(p, s, w, sigma, length, tie, r, l)
    requires value == if WithinCutoff(p, s) then PairEnergy(p, s) else 0.0
    ensures && value == SideValue(p, r, rest) == SideValue(p, l, rest)
            && m == SideSlope(p, r, rest, sigma) == SideSlope(p, l, rest, sigma)
            <==> Smooth(p, s, w, tie) && m == SlopeHere(p, s, w, sigma)
  {
    OppositeSquares(w, rest);
    SignedForceZero(ForceScale(p, s), w, sigma);
    if tie { assert sigma * length == length || sigma * length == -length; }
    assert sigma * w == w || sigma * w == -w;
    assert sigma * -w == w || sigma * -w == -w;
  }

  /** For every pair: m is the slope of its energy exactly in the smooth cases, with the force of the loop as m. */
  lemma PairSlopeIff(e: real -> real, p: Params, d: real, length: real, rest: real, sigma: real, x: real, w: real, s: real, m: real)
    requires length != 0.0 && (sigma == 1.0 || sigma == -1.0)
    requires forall y :: IsPairEnergy(e, p, d, length, rest, sigma, x, y)
    requires w == MinimumImage.Wrap(d, length) && s == SumOfSquares(w, rest) && (WithinCutoff(p, s) ==> 0.0 < s)
    ensures HasSlope(e, x, m) <==> Smooth(p, s, w, MinimumImage.IsTie(d, length)) && m == SlopeHere(p, s, w, sigma)
  {
    var r, l, delta := Sides(e, p, d, length, rest, sigma, x, w);
    OppositeSquares(w, rest);
    PositiveAtCutoff(p, s);
    SlopeOfSides(e, p, r, l, rest, sigma, x, m, delta);
    ValueHere(e, p, d, length, rest, sigma, x);
    SidesAgree(p, s, w, rest, sigma, length, MinimumImage.IsTie(d, length), r, l, e(x), m);
  }

  lemma PositiveAtCutoff(p: Params, s: real)
    ensures AtCutoff(p, s) ==> 0.0 < s
  {
    if AtCutoff(p, s) { var square := MinimumImage.PositiveSquare(p.cuttOffR); }
  }

  lemma ValueHere(e: real -> real, p: Params, d: real, length: real, rest: real, sigma: real, x: real)
    requires length != 0.0 && IsPairEnergy(e, p, d, length, rest, sigma, x, x)
    ensures e(x) == if WithinCutoff(p, SquareAt(d, length, rest)) then PairEnergy(p, SquareAt(d, length, rest)) else 0.0
  {
    assert Displaced(d, sigma, x, x) == d;
  }

  lemma SignedPairForce(p: Params, cfg: ForceInput, i: nat, j: nat, k: nat, c: nat) returns (m: real)
    requires cfg.Valid() && c < 3 && i < j < cfg.nAtoms && (i == k || j == k)
    ensures m == PairSlope(ForceFn(p, cfg, c), i, j, k)
    ensures if Interacts(p, cfg, i, j) then m == -(Sign(i, j, k) * PairForce(p, cfg.Square(i, j), cfg.Wrapped(i, j, c)))
            else m == 0.0
  {
    m := if i == k then -ForceFn(p, cfg, c)(i, j) else ForceFn(p, cfg, c)(i, j);
    if Interacts(p, cfg, i, j) {
      assert ForceFn(p, cfg, c)(i, j) == PairForce(p, cfg.Square(i, j), cfg.Wrapped(i, j, c));
    }
  }

  lemma AllMoved(p: Params, cfg: ForceInput, k: nat, c: nat, i: nat, j: nat,
                 e: real -> real, d: real, length: real, rest: real, sigma: real, x: real)
    requires cfg.Valid() && k < cfg.nAtoms && c < 3 && i < j < cfg.nAtoms
    requires e == EntryAlong(TableAlong(p, cfg, k, c), i, j) && x == cfg.pos[3 * k + c] && sigma == Sign(i, j, k)
    requires d == cfg.Displacement(i, j, c) && length == cfg.Length(c) && rest == Rest(cfg, i, j, c)
    ensures forall y :: IsPairEnergy(e, p, d, length, rest, sigma, x, y)
  {
    forall y
      ensures IsPairEnergy(e, p, d, length, rest, sigma, x, y)
    {
      MovedEnergy(p, cfg, k, c, i, j, y);
    }
  }

  /** The pair (i, j) has a slope along c. */
  ghost predicate SmoothPair(p: Params, cfg: ForceInput, i: nat, j: nat, c: nat)
    requires cfg.Valid() && cfg.InRange(i, j) && c < 3
  {
    Smooth(p, cfg.Square(i, j), cfg.Wrapped(i, j, c), MinimumImage.IsTie(cfg.Displacement(i, j, c), cfg.Length(c)))
  }

  /**
   As coordinate c of one of its atoms moves, the energy of a pair has slope m if and only if the pair is smooth and m is minus
   the force that the loop computes for that atom and that pair.
   */
  lemma EntryHasSlopeIff(p: Params, cfg: ForceInput, k: nat, c: nat, i: nat, j: nat, m: real)
    requires cfg.Valid() && k < cfg.nAtoms && c < 3 && i < j < cfg.nAtoms && (i == k || j == k)
    requires Interacts(p, cfg, i, j) ==> cfg.Square(i, j) > 0.0
    ensures HasSlope(EntryAlong(TableAlong(p, cfg, k, c), i, j), cfg.pos[3 * k + c], m) <==>
            SmoothPair(p, cfg, i, j, c) && m == PairSlope(ForceFn(p, cfg, c), i, j, k)
  {
    var e, x, sigma := EntryAlong(TableAlong(p, cfg, k, c), i, j), cfg.pos[3 * k + c], Sign(i, j, k);
    var d, length, rest := cfg.Displacement(i, j, c), cfg.Length(c), Rest(cfg, i, j, c);
    AllMoved(p, cfg, k, c, i, j, e, d, length, rest, sigma, x);
    SquareSplits(cfg, i, j, c);
    var f := SignedPairForce(p, cfg, i, j, k, c);
    PairSlopeIff(e, p, d, length, rest, sigma, x, cfg.Wrapped(i, j, c), cfg.Square(i, j), m);
  }

  /** The pair half a box apart, with the constants of the constructor: its energy has no slope along x. */
  lemma TiedPairHasNoSlope(leftOver: real, m: real)
    ensures Symmetry.TIED_PAIR.Valid()
    ensures !HasSlope(EntryAlong(TableAlong(Params(1.0, 15.0, 1.0, leftOver), Symmetry.TIED_PAIR, 0, 0), 0, 1), 0.0, m)
  {
    var p, cfg := Params(1.0, 15.0, 1.0, leftOver), Symmetry.TIED_PAIR;
    Symmetry.NumberingOfTiedPairMatters(leftOver);
    assert Interacts(p, cfg, 0, 1);
    assert !SmoothPair(p, cfg, 0, 1, 0);
    EntryHasSlopeIff(p, cfg, 0, 0, 0, 1, m);
  }

  // ---------- The gradient ----------

  function SlopeTable(f: PairFn, k: int): PairFn { (i, j) => PairSlope(f, i, j, k) }

  /** The slopes of all pairs add up to minus what the loop collects for atom k. */
  lemma SlopesAddUp(f: PairFn, n: nat, k: nat)
    requires k < n
    ensures HalfSum(SlopeTable(f, k), n, n) == -Paired(f, n, k)
  {
    HalfSumOfOneAtom(SlopeTable(f, k), n, n, k);
    RowSumNegates(f, SlopeTable(f, k), k, k + 1, n);
    ColSumCongruent(SlopeTable(f, k), f, 0, k, k);
  }

  /** Every pair with atom k has a slope along c. */
  ghost predicate AtomSmooth(p: Params, cfg: ForceInput, k: nat, c: nat)
    requires cfg.Valid() && k < cfg.nAtoms && c < 3
  {
    forall i: nat, j: nat :: i < j < cfg.nAtoms && (i == k || j == k) ==>
      SmoothPair(p, cfg, i, j, c) && (Interacts(p, cfg, i, j) ==> cfg.Square(i, j) > 0.0)
  }

  lemma EntryMoves(p: Params, cfg: ForceInput, k: nat, c: nat, i: nat, j: nat)
    requires cfg.Valid() && k < cfg.nAtoms && c < 3 && i < j < cfg.nAtoms && AtomSmooth(p, cfg, k, c)
    ensures HasSlope(EntryAlong(TableAlong(p, cfg, k, c), i, j), cfg.pos[3 * k + c], PairSlope(ForceFn(p, cfg, c), i, j, k))
  {
    if i != k && j != k {
      UnmovedPair(p, cfg, k, c, i, j);
    } else {
      assert SmoothPair(p, cfg, i, j, c);
      EntryHasSlopeIff(p, cfg, k, c, i, j, PairSlope(ForceFn(p, cfg, c), i, j, k));
    }
  }

  /** The computed force is the negative slope of the computed energy along every coordinate along which all pairs have one. */
  lemma ForceIsNegativeGradient(p: Params, cfg: ForceInput, k: nat, c: nat)
    requires cfg.Valid() && k < cfg.nAtoms && c < 3 && AtomSmooth(p, cfg, k, c)
    ensures HasSlope(EnergyAlong(p, cfg, k, c), cfg.pos[3 * k + c], -Force(p, cfg, k, c))
  {
    var f, n := ForceFn(p, cfg, c), cfg.nAtoms;
    forall i, j | 0 <= i < n && i < j < n
      ensures HasSlope(EntryAlong(TableAlong(p, cfg, k, c), i, j), cfg.pos[3 * k + c], SlopeTable(f, k)(i, j))
    {
      EntryMoves(p, cfg, k, c, i, j);
    }
    HalfSlope(TableAlong(p, cfg, k, c), SlopeTable(f, k), cfg.pos[3 * k + c], n, n);
    SlopesAddUp(f, n, k);
  }
}
