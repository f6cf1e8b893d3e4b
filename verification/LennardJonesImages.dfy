/**
 The periodic images of a pair: the loop takes a nearest one, and counts the pairs
 that have an image within the cutoff.
 */
module LennardJonesImages {
  import opened MinimumImage
  import opened LennardJones

  /** (x, y, z) is the displacement from atom j to the image of atom i that is a, b and c boxes away along x, y and z. */
  predicate IsImage(cfg: ForceInput, i: nat, j: nat, a: int, b: int, c: int, x: real, y: real, z: real)
    requires cfg.Valid() && cfg.InRange(i, j)
  {
    && x == cfg.pos[3 * i] - cfg.pos[3 * j] - cfg.box[0] * a as real
    && y == cfg.pos[3 * i + 1] - cfg.pos[3 * j + 1] - cfg.box[4] * b as real
    && z == cfg.pos[3 * i + 2] - cfg.pos[3 * j + 2] - cfg.box[8] * c as real
  }

  /** The component along c of the displacement to the image that is m boxes away. */
  function ImageComponent(cfg: ForceInput, i: nat, j: nat, c: nat, m: int): real
    requires cfg.Valid() && cfg.InRange(i, j) && c < 3
  {
    cfg.Displacement(i, j, c) - cfg.Length(c) * m as real
  }

  lemma ImageByComponents(cfg: ForceInput, i: nat, j: nat, a: int, b: int, c: int, x: real, y: real, z: real)
    requires cfg.Valid() && cfg.InRange(i, j)
    ensures IsImage(cfg, i, j, a, b, c, x, y, z) <==>
            x == ImageComponent(cfg, i, j, 0, a) && y == ImageComponent(cfg, i, j, 1, b) && z == ImageComponent(cfg, i, j, 2, c)
  {
    assert ImageComponent(cfg, i, j, 0, a) == cfg.pos[3 * i] - cfg.pos[3 * j] - cfg.box[0] * a as real;
    assert ImageComponent(cfg, i, j, 1, b) == cfg.pos[3 * i + 1] - cfg.pos[3 * j + 1] - cfg.box[4] * b as real;
    assert ImageComponent(cfg, i, j, 2, c) == cfg.pos[3 * i + 2] - cfg.pos[3 * j + 2] - cfg.box[8] * c as real;
  }

  /** The image that the loop takes, in direction c. */
  function ImageTaken(cfg: ForceInput, i: nat, j: nat, c: nat): int
    requires cfg.Valid() && cfg.InRange(i, j) && c < 3
  {
    Images(cfg.Displacement(i, j, c), cfg.Length(c))
  }

  ghost predicate IsTaken(cfg: ForceInput, i: nat, j: nat, x: real, y: real, z: real)
    requires cfg.Valid() && cfg.InRange(i, j)
  {
    IsImage(cfg, i, j, ImageTaken(cfg, i, j, 0), ImageTaken(cfg, i, j, 1), ImageTaken(cfg, i, j, 2), x, y, z)
  }

  /** No image of the pair is closer than (u, v, w). */
  ghost predicate IsNearest(cfg: ForceInput, i: nat, j: nat, u: real, v: real, w: real)
    requires cfg.Valid() && cfg.InRange(i, j)
  {
    forall a, b, c, x, y, z :: IsImage(cfg, i, j, a, b, c, x, y, z) ==> SquaredNorm(u, v, w) <= SquaredNorm(x, y, z)
  }

  /** The squared distance of the loop is that of an image, and no image is closer. */
  lemma SquareIsLeastImage(cfg: ForceInput, i: nat, j: nat)
    requires cfg.Valid() && cfg.InRange(i, j)
    ensures exists u, v, w ::
              IsTaken(cfg, i, j, u, v, w) && IsNearest(cfg, i, j, u, v, w) && cfg.Square(i, j) == SquaredNorm(u, v, w)
  {
    WrapIsTaken(cfg, i, j);
    WrapIsNearestImage(cfg, i, j);
  }

  lemma WrapIsNearestImage(cfg: ForceInput, i: nat, j: nat)
    requires cfg.Valid() && cfg.InRange(i, j)
    ensures IsNearest(cfg, i, j, cfg.Wrapped(i, j, 0), cfg.Wrapped(i, j, 1), cfg.Wrapped(i, j, 2))
  {
    var u, v, w := cfg.Wrapped(i, j, 0), cfg.Wrapped(i, j, 1), cfg.Wrapped(i, j, 2);
    forall a, b, c, x, y, z | IsImage(cfg, i, j, a, b, c, x, y, z)
      ensures SquaredNorm(u, v, w) <= SquaredNorm(x, y, z)
    {
      WrappedIsImage(cfg, i, j, 0, a);
      WrappedIsImage(cfg, i, j, 1, b);
      WrappedIsImage(cfg, i, j, 2, c);
      ImageByComponents(cfg, i, j, a, b, c, x, y, z);
      NormGrows(u, v, w, x, y, z);
    }
  }

  lemma WrapIsTaken(cfg: ForceInput, i: nat, j: nat)
    requires cfg.Valid() && cfg.InRange(i, j)
    ensures IsTaken(cfg, i, j, cfg.Wrapped(i, j, 0), cfg.Wrapped(i, j, 1), cfg.Wrapped(i, j, 2))
  {
    WrappedIsImage(cfg, i, j, 0, 0);
    WrappedIsImage(cfg, i, j, 1, 0);
    WrappedIsImage(cfg, i, j, 2, 0);
    ImageByComponents(cfg, i, j, ImageTaken(cfg, i, j, 0), ImageTaken(cfg, i, j, 1), ImageTaken(cfg, i, j, 2),
                      cfg.Wrapped(i, j, 0), cfg.Wrapped(i, j, 1), cfg.Wrapped(i, j, 2));
  }

  lemma WrappedIsImage(cfg: ForceInput, i: nat, j: nat, c: nat, m: int)
    requires cfg.Valid() && cfg.InRange(i, j) && c < 3
    ensures cfg.Wrapped(i, j, c) == ImageComponent(cfg, i, j, c, ImageTaken(cfg, i, j, c))
    ensures Abs(cfg.Wrapped(i, j, c)) <= Abs(ImageComponent(cfg, i, j, c, m))
  {
    WrapIsNearest(cfg.Displacement(i, j, c), cfg.Length(c), m);
  }

  lemma NormGrows(x: real, y: real, z: real, u: real, v: real, w: real)
    requires Abs(x) <= Abs(u) && Abs(y) <= Abs(v) && Abs(z) <= Abs(w)
    ensures SquaredNorm(x, y, z) <= SquaredNorm(u, v, w)
  {
    SquareMonotone(x, u);
    SquareMonotone(y, v);
    SquareMonotone(z, w);
  }

  /** d is the length of (x, y, z). */
  predicate IsLength(d: real, x: real, y: real, z: real)
  {
    d >= 0.0 && d * d == SquaredNorm(x, y, z)
  }

  /** Some periodic image of the pair lies at a distance below r. */
  ghost predicate HasImageWithin(cfg: ForceInput, i: nat, j: nat, r: real)
    requires cfg.Valid() && cfg.InRange(i, j)
  {
    exists a, b, c, x, y, z, d :: IsImage(cfg, i, j, a, b, c, x, y, z) && IsLength(d, x, y, z) && d < r
  }

  lemma SquareIsNonNegative(x: real, y: real, z: real)
    ensures 0.0 <= SquaredNorm(x, y, z)
  {
    SquareMonotone(0.0, x);
    SquareMonotone(0.0, y);
    SquareMonotone(0.0, z);
  }

  /** A pair is counted exactly when some periodic image of it is closer than the cutoff. */
  lemma CountedIffSomeImageIsClose(p: Params, cfg: ForceInput, i: nat, j: nat, sqrt: real -> real)
    requires cfg.Valid() && cfg.InRange(i, j) && IsSqrt(sqrt)
    ensures Interacts(p, cfg, i, j) <==> HasImageWithin(cfg, i, j, p.cuttOffR)
  {
    if Interacts(p, cfg, i, j) {
      WrapIsTaken(cfg, i, j);
      var s, d := cfg.Square(i, j), sqrt(cfg.Square(i, j));
      SquareIsNonNegative(cfg.Wrapped(i, j, 0), cfg.Wrapped(i, j, 1), cfg.Wrapped(i, j, 2));
      CutoffTest(p, d, s);
      assert IsLength(d, cfg.Wrapped(i, j, 0), cfg.Wrapped(i, j, 1), cfg.Wrapped(i, j, 2));
    }
    if a, b, c, x, y, z, d :| IsImage(cfg, i, j, a, b, c, x, y, z) && IsLength(d, x, y, z) && d < p.cuttOffR {
      WrapIsNearestImage(cfg, i, j);
      CutoffTest(p, d, SquaredNorm(x, y, z));
    }
  }
}
