/**
 The Lennard-Jones engine: what a pair of atoms contributes, and the half-pair
 loop that adds the contributions into the output buffers in place.
 */
module LennardJones {
  import opened PairSums
  import opened MinimumImage
  import opened ForceBuffer

  /** The four fields of the potential. */
  datatype Params = Params(u0: real, cuttOffR: real, psi: real, cuttOffU: real)

  /** The read-only input: nAtoms positions flattened row by row, and a 3 by 3 cell. */
  datatype ForceInput = ForceInput(nAtoms: nat, pos: seq<real>, atmnrs: seq<int>, box: seq<real>)
  {
    /** The buffers are long enough and the three lengths on the cell diagonal can be divided by. */
    ghost predicate Valid() {
      && |pos| >= 3 * nAtoms
      && |box| >= 9 && box[0] != 0.0 && box[4] != 0.0 && box[8] != 0.0
    }

    predicate InRange(i: int, j: int) { 0 <= i < nAtoms && 0 <= j < nAtoms }

    /** The cell length along direction c. */
    function Length(c: nat): (length: real)
      requires Valid() && c < 3
      ensures length != 0.0
    {
      box[4 * c]
    }

    function Displacement(i: nat, j: nat, c: nat): real
      requires Valid() && InRange(i, j) && c < 3
    {
      pos[3 * i + c] - pos[3 * j + c]
    }

    function Wrapped(i: nat, j: nat, c: nat): real
      requires Valid() && InRange(i, j) && c < 3
    {
      Wrap(Displacement(i, j, c), Length(c))
    }

    /** The squared minimum-image distance. */
    function Square(i: nat, j: nat): real
      requires Valid() && InRange(i, j)
    {
      SquaredNorm(Wrapped(i, j, 0), Wrapped(i, j, 1), Wrapped(i, j, 2))
    }
  }

  function SquaredNorm(x: real, y: real, z: real): real { x * x + y * y + z * z }

  function Pow6(x: real): real { x * x * x * (x * x * x) }

  function Recip(s: real): real { if s == 0.0 then 0.0 else 1.0 / s }

  /** Whether a pair at squared distance s is closer than the cutoff. */
  predicate WithinCutoff(p: Params, s: real)
  {
    0.0 < p.cuttOffR && s < p.cuttOffR * p.cuttOffR
  }

  /** (psi / r)^6 in terms of s = r^2. */
  function Attraction(p: Params, s: real): real
  {
    Pow6(p.psi) * (Recip(s) * Recip(s) * Recip(s))
  }

  /** The 12-6 pair energy shifted by the cutoff energy, as a function of s = r^2. */
  function PairEnergy(p: Params, s: real): real
  {
    var a := Attraction(p, s);
    4.0 * p.u0 * (a * (a - 1.0)) - p.cuttOffU
  }

  /** The pair force divided by the displacement, as a function of s = r^2. */
  function ForceScale(p: Params, s: real): real
  {
    var a := Attraction(p, s);
    24.0 * p.u0 * (a * (2.0 * a - 1.0)) * Recip(s)
  }

  /** The component of the pair force along a direction in which the displacement is x. */
  function PairForce(p: Params, s: real, x: real): real
  {
    ForceScale(p, s) * x
  }

  /** The shifted 12-6 form and its force, with all powers written out and no division: q is psi^6, t is s^3 = r^6. */
  lemma TwelveSixLaw(p: Params, s: real, x: real, q: real, t: real)
    requires s > 0.0 && q == p.psi * p.psi * p.psi * p.psi * p.psi * p.psi && t == s * s * s
    ensures (PairEnergy(p, s) + p.cuttOffU) * (t * t) == 4.0 * p.u0 * (q * q - q * t)
    ensures PairForce(p, s, x) * s * (t * t) == 24.0 * p.u0 * (2.0 * (q * q) - q * t) * x
  {
    var a, r := Attraction(p, s), Recip(s);
    SixthPower(p.psi, q);
    assert r * s == 1.0;
    CubesCancel(r, s, r * r * r, t);
    assert a * t == q by { assert a == q * (r * r * r); }
    EnergyLaw(p.u0, a, q, t);
    ForceLaw(p.u0, a, r, s, q, t, x);
  }

  lemma SixthPower(x: real, q: real)
    requires q == x * x * x * x * x * x
    ensures Pow6(x) == q
  {
    var y := x * x * x;
    assert y * x * x * x == y * y;
  }

  lemma CubesCancel(r: real, s: real, cube: real, t: real)
    requires r * s == 1.0 && cube == r * r * r && t == s * s * s
    ensures cube * t == 1.0
  {
    assert cube * t == (r * s) * (r * s) * (r * s);
  }

  lemma EnergyLaw(u0: real, a: real, q: real, t: real)
    requires a * t == q
    ensures 4.0 * u0 * (a * (a - 1.0)) * (t * t) == 4.0 * u0 * (q * q - q * t)
  {
    assert a * (a - 1.0) * (t * t) == (a * t) * (a * t) - (a * t) * t;
  }

  lemma ForceLaw(u0: real, a: real, r: real, s: real, q: real, t: real, x: real)
    requires a * t == q && r * s == 1.0
    ensures 24.0 * u0 * (a * (2.0 * a - 1.0)) * r * x * s * (t * t) == 24.0 * u0 * (2.0 * (q * q) - q * t) * x
  {
    var well := a * (2.0 * a - 1.0);
    assert well * (t * t) == 2.0 * ((a * t) * (a * t)) - (a * t) * t;
    assert 24.0 * u0 * well * r * x * s * (t * t) == 24.0 * u0 * (well * (t * t)) * x * (r * s);
  }

  ghost predicate Interacts(p: Params, cfg: ForceInput, i: int, j: int)
    requires cfg.Valid()
  {
    cfg.InRange(i, j) && WithinCutoff(p, cfg.Square(i, j))
  }

  /** What the pair (i, j) adds to the energy. */
  ghost function EnergyFn(p: Params, cfg: ForceInput): PairFn
    requires cfg.Valid()
  {
    (i, j) => if cfg.Valid() && Interacts(p, cfg, i, j) then PairEnergy(p, cfg.Square(i, j)) else 0.0
  }

  /** The component along c of the force on i due to j, taken from the displacement R_i - R_j. */
  ghost function ForceFn(p: Params, cfg: ForceInput, c: nat): PairFn
    requires cfg.Valid() && c < 3
  {
    (i, j) => if cfg.Valid() && Interacts(p, cfg, i, j)
              then PairForce(p, cfg.Square(i, j), cfg.Wrapped(i, j, c)) else 0.0
  }

  /** No interacting pair sits on top of each other. */
  ghost predicate Apart(p: Params, cfg: ForceInput)
    requires cfg.Valid()
  {
    forall i, j :: 0 <= i < j < cfg.nAtoms && Interacts(p, cfg, i, j) ==> cfg.Square(i, j) > 0.0
  }

  /** The energy: one term for each unordered pair within the cutoff. */
  ghost function Energy(p: Params, cfg: ForceInput): real
    requires cfg.Valid()
  {
    HalfSum(EnergyFn(p, cfg), cfg.nAtoms, cfg.nAtoms)
  }

  /** Component c of the force on atom k as the half-pair traversal accumulates it. */
  ghost function Force(p: Params, cfg: ForceInput, k: nat, c: nat): real
    requires cfg.Valid() && c < 3
  {
    Paired(ForceFn(p, cfg, c), cfg.nAtoms, k)
  }

  /** Component c of the force on atom k by its definition: the sum over all other atoms, seen from k. */
  ghost function PerAtomForce(p: Params, cfg: ForceInput, k: nat, c: nat): real
    requires cfg.Valid() && c < 3
  {
    PerAtom(ForceFn(p, cfg, c), cfg.nAtoms, k)
  }

  // ---------- The square root of the C library ----------

  ghost predicate IsSqrt(sqrt: real -> real)
  {
    forall s :: s >= 0.0 ==> sqrt(s) >= 0.0 && sqrt(s) * sqrt(s) == s
  }

  lemma CutoffTest(p: Params, d: real, s: real)
    requires d >= 0.0 && d * d == s
    ensures d < p.cuttOffR <==> WithinCutoff(p, s)
  {
    var c := p.cuttOffR;
    if 0.0 < c {
      var gap := c - d;
      assert c * c - s == gap * (c + d);
      if 0.0 < gap {
        assert gap * (c + d) > 0.0;
      } else {
        assert gap * (c + d) <= 0.0;
      }
    }
  }

  /** The code's expressions in the distance are the model's expressions in the squared distance. */
  lemma SourceTerms(p: Params, d: real, s: real, a: real, b: real, dE: real)
    requires d > 0.0 && d * d == s
    requires a == Pow6(p.psi / d) && b == 4.0 * p.u0 * a && dE == b * (a - 1.0) - p.cuttOffU
    ensures a == Attraction(p, s)
    ensures dE == PairEnergy(p, s)
  {
    var r, q := ReciprocalRoot(d, s);
    assert p.psi / d == p.psi * r;
    Pow6Product(p.psi, r);
    assert Pow6(r) == q * q * q by { assert r * r * r * (r * r * r) == (r * r) * (r * r) * (r * r); }
    assert b * (a - 1.0) == 4.0 * p.u0 * (a * (a - 1.0));
  }

  lemma SourceForce(p: Params, d: real, s: real, a: real, b: real, dU: real, x: real)
    requires d > 0.0 && d * d == s
    requires a == Attraction(p, s) && b == 4.0 * p.u0 * a
    requires dU == -6.0 * b / d * (2.0 * a - 1.0)
    ensures dU * x / d == -PairForce(p, s, x)
  {
    var r, q := ReciprocalRoot(d, s);
    var e := 2.0 * a - 1.0;
    DivideTwice(b, e, x, d, r, q);
    assert 6.0 * (b * e) == 24.0 * p.u0 * (a * e);
  }

  lemma ReciprocalRoot(d: real, s: real) returns (r: real, q: real)
    requires d > 0.0 && d * d == s
    ensures r * d == 1.0 && r == 1.0 / d && q == r * r && q == Recip(s) && s > 0.0
  {
    r := 1.0 / d;
    q := r * r;
    assert q * s == 1.0 by { assert q * s == (r * d) * (r * d); }
    assert q * s / s == q;
  }

  lemma Pow6Product(x: real, y: real)
    ensures Pow6(x * y) == Pow6(x) * Pow6(y)
  {
    assert (x * y) * (x * y) * (x * y) == (x * x * x) * (y * y * y);
    var u, v := x * x * x, y * y * y;
    assert (u * v) * (u * v) == (u * u) * (v * v);
  }

  lemma DivideTwice(b: real, e: real, x: real, d: real, r: real, q: real)
    requires d > 0.0 && r * d == 1.0 && q == r * r
    ensures -6.0 * b / d * e * x / d == -(6.0 * (b * e) * q * x)
  {
    assert -6.0 * b / d == -6.0 * b * r;
    var m := -6.0 * b * r * e * x;
    assert m / d == m * r;
    assert m * r == -(6.0 * (b * e) * (r * r) * x);
  }

  ghost function ForceTables(p: Params, cfg: ForceInput): Tables
    requires cfg.Valid()
  {
    Tables(ForceFn(p, cfg, 0), ForceFn(p, cfg, 1), ForceFn(p, cfg, 2))
  }

  /** Marks the pair whose table entries a proof wants to look at. */
  predicate Chosen(i: int, j: int) { true }

  /** What the tables hold for the pair (i, j). */
  ghost predicate EntriesMatch(p: Params, cfg: ForceInput, e: PairFn, t: Tables, i: nat, j: nat)
    requires cfg.Valid() && cfg.InRange(i, j)
  {
    if Interacts(p, cfg, i, j) then
      var s := cfg.Square(i, j);
      && e(i, j) == PairEnergy(p, s)
      && t.At(i, j) == Vec(PairForce(p, s, cfg.Wrapped(i, j, 0)),
                           PairForce(p, s, cfg.Wrapped(i, j, 1)),
                           PairForce(p, s, cfg.Wrapped(i, j, 2)))
    else
      e(i, j) == 0.0 && t.At(i, j) == ZERO
  }

  /** e and t are the pair tables of the configuration. */
  ghost predicate TablesMatch(p: Params, cfg: ForceInput, e: PairFn, t: Tables)
    requires cfg.Valid()
  {
    forall i: nat, j: nat {:trigger Chosen(i, j)} ::
      Chosen(i, j) && i < j < cfg.nAtoms ==> EntriesMatch(p, cfg, e, t, i, j)
  }

  lemma TablesMatchThemselves(p: Params, cfg: ForceInput)
    requires cfg.Valid()
    ensures TablesMatch(p, cfg, EnergyFn(p, cfg), ForceTables(p, cfg))
  {
  }

  /** The output buffers of a force call. */
  class ForceOut {
    var F: array<real>
    var energy: real
    var variance: real

    constructor (F: array<real>, energy: real, variance: real)
      ensures this.F == F && this.energy == energy && this.variance == variance
    {
      this.F, this.energy, this.variance := F, energy, variance;
    }
  }

  class LJPot {
    var u0: real
    var cuttOffR: real
    var psi: real
    var cuttOffU: real

    /** cuttOffU is declared but never set: it holds whatever was there. */
    constructor (leftOver: real)
      ensures Fields() == Params(1.0, 15.0, 1.0, leftOver)
    {
      u0, cuttOffR, psi, cuttOffU := 1.0, 15.0, 1.0, leftOver;
    }

    ghost function Fields(): Params
      reads this
    {
      Params(u0, cuttOffR, psi, cuttOffU)
    }

    /** The displacement of the pair (i, j), wrapped to the nearest image. */
    static method MinimumImageOf(cfg: ForceInput, i: nat, j: nat) returns (diffRX: real, diffRY: real, diffRZ: real)
      requires cfg.Valid() && cfg.InRange(i, j)
      ensures diffRX == cfg.Wrapped(i, j, 0) == Wrap(cfg.pos[3 * i] - cfg.pos[3 * j], cfg.box[0])
      ensures diffRY == cfg.Wrapped(i, j, 1) == Wrap(cfg.pos[3 * i + 1] - cfg.pos[3 * j + 1], cfg.box[4])
      ensures diffRZ == cfg.Wrapped(i, j, 2) == Wrap(cfg.pos[3 * i + 2] - cfg.pos[3 * j + 2], cfg.box[8])
    {
      var R, box := cfg.pos, cfg.box;
      diffRX := R[3 * i] - R[3 * j];
      diffRY := R[3 * i + 1] - R[3 * j + 1];
      diffRZ := R[3 * i + 2] - R[3 * j + 2];

      diffRX := NearestImage(diffRX, box[0]);
      diffRY := NearestImage(diffRY, box[4]);
      diffRZ := NearestImage(diffRZ, box[8]);
    }

    static method NearestImage(diff: real, length: real) returns (wrapped: real)
      requires length != 0.0
      ensures wrapped == Wrap(diff, length)
    {
      ghost var images := Images(diff, length);
      assert (diff / length + 0.5).Floor == images;
      wrapped := diff - length * (diff / length + 0.5).Floor as real;
    }

    /** The energy and the three terms dU * diff / diffR of a pair at distance diffR. */
    method PairTerms(diffR: real, diffRX: real, diffRY: real, diffRZ: real, ghost s: real)
      returns (dE: real, gX: real, gY: real, gZ: real)
      requires diffR > 0.0 && diffR * diffR == s
      ensures dE == PairEnergy(Fields(), s)
      ensures gX == -PairForce(Fields(), s, diffRX)
      ensures gY == -PairForce(Fields(), s, diffRY)
      ensures gZ == -PairForce(Fields(), s, diffRZ)
    {
      var a := Pow6(psi / diffR);
      var b := 4.0 * u0 * a;
      dE := b * (a - 1.0) - cuttOffU;
      SourceTerms(Fields(), diffR, s, a, b, dE);
      var dU := -6.0 * b / diffR * (2.0 * a - 1.0);
      gX := SourceComponent(diffR, s, a, b, dU, diffRX);
      gY := SourceComponent(diffR, s, a, b, dU, diffRY);
      gZ := SourceComponent(diffR, s, a, b, dU, diffRZ);
    }

    method SourceComponent(diffR: real, ghost s: real, ghost a: real, ghost b: real, dU: real, x: real) returns (g: real)
      requires diffR > 0.0 && diffR * diffR == s
      requires a == Attraction(Fields(), s) && b == 4.0 * u0 * a
      requires dU == -6.0 * b / diffR * (2.0 * a - 1.0)
      ensures g == -PairForce(Fields(), s, x)
    {
      SourceForce(Fields(), diffR, s, a, b, dU, x);
      g := dU * x / diffR;
    }

    /** Whether the pair (i, j) is within the cutoff, and what it contributes. */
    method EvaluatePair(sqrt: real -> real, cfg: ForceInput, i: nat, j: nat, ghost e: PairFn, ghost t: Tables)
      returns (within: bool, dE: real, gX: real, gY: real, gZ: real)
      requires IsSqrt(sqrt)
      requires cfg.Valid() && Apart(Fields(), cfg) && TablesMatch(Fields(), cfg, e, t)
      requires i < j < cfg.nAtoms
      ensures dE == e(i, j) && Vec(-gX, -gY, -gZ) == t.At(i, j)
      ensures !within ==> dE == gX == gY == gZ == 0.0
    {
      assert Chosen(i, j);
      assert EntriesMatch(Fields(), cfg, e, t, i, j);
      var diffRX, diffRY, diffRZ := MinimumImageOf(cfg, i, j);
      var diffR := sqrt(diffRX * diffRX + diffRY * diffRY + diffRZ * diffRZ);
      CutoffTest(Fields(), diffR, cfg.Square(i, j));
      if diffR < cuttOffR {
        dE, gX, gY, gZ := PairTerms(diffR, diffRX, diffRY, diffRZ, cfg.Square(i, j));
        within := true;
      } else {
        within, dE, gX, gY, gZ := false, 0.0, 0.0, 0.0, 0.0;
      }
    }

    /** The body of the inner loop: the pair (i, j). */
    method AddPair(sqrt: real -> real, cfg: ForceInput, out: ForceOut, i: nat, j: nat, ghost e: PairFn, ghost t: Tables)
      requires IsSqrt(sqrt)
      requires cfg.Valid() && Apart(Fields(), cfg) && TablesMatch(Fields(), cfg, e, t)
      requires i < j < cfg.nAtoms && Accumulated(out.F[..], t, cfg.nAtoms, i, j)
      modifies out`energy, out.F
      ensures out.energy == old(out.energy) + e(i, j)
      ensures Accumulated(out.F[..], t, cfg.nAtoms, i, j + 1)
      ensures Net(out.F[..], cfg.nAtoms) == ZERO
      ensures out.F[3 * cfg.nAtoms..] == old(out.F[3 * cfg.nAtoms..])
    {
      ghost var n, before := cfg.nAtoms, out.F[..];
      var within, dE, gX, gY, gZ := EvaluatePair(sqrt, cfg, i, j, e, t);
      if within {
        out.energy := out.energy + dE;
        Exchange(out.F, n, i, j, gX, gY, gZ);
      } else {
        NothingAdded(before, n, i, j);
      }
      AccumulatedStep(before, out.F[..], t, n, i, j);
      NetForceIsZero(out.F[..], t, n, i, j + 1);
    }

    /** The inner loop: all pairs (i, j) with j after i. */
    method AddRow(sqrt: real -> real, cfg: ForceInput, out: ForceOut, i: nat, ghost e: PairFn, ghost t: Tables)
      requires IsSqrt(sqrt)
      requires cfg.Valid() && Apart(Fields(), cfg) && TablesMatch(Fields(), cfg, e, t)
      requires i < cfg.nAtoms && Accumulated(out.F[..], t, cfg.nAtoms, i, i + 1)
      modifies out`energy, out.F
      ensures out.energy == old(out.energy) + RowSum(e, i, i + 1, cfg.nAtoms)
      ensures Accumulated(out.F[..], t, cfg.nAtoms, i, cfg.nAtoms)
      ensures out.F[3 * cfg.nAtoms..] == old(out.F[3 * cfg.nAtoms..])
    {
      var N: int, F := cfg.nAtoms, out.F;
      var j := i + 1;
      while j < N
        invariant i < j <= N
        invariant Accumulated(F[..], t, N, i, j)
        invariant out.energy == old(out.energy) + RowSum(e, i, i + 1, j)
        invariant F[3 * N..] == old(out.F[3 * N..])
      {
        AddPair(sqrt, cfg, out, i, j, e, t);
        j := j + 1;
      }
    }

    /** The outer loop: every row, after the forces were cleared. */
    method AddRows(sqrt: real -> real, cfg: ForceInput, out: ForceOut, ghost e: PairFn, ghost t: Tables)
      requires IsSqrt(sqrt)
      requires cfg.Valid() && Apart(Fields(), cfg) && TablesMatch(Fields(), cfg, e, t)
      requires Accumulated(out.F[..], t, cfg.nAtoms, 0, 1)
      modifies out`energy, out.F
      ensures out.energy == old(out.energy) + HalfSum(e, cfg.nAtoms, cfg.nAtoms)
      ensures forall k :: 0 <= k < cfg.nAtoms ==> Atom(out.F[..], k) == t.Final(cfg.nAtoms, k)
      ensures Net(out.F[..], cfg.nAtoms) == ZERO
      ensures out.F[3 * cfg.nAtoms..] == old(out.F[3 * cfg.nAtoms..])
    {
      var N: int, F := cfg.nAtoms, out.F;
      var i := 0;
      while i < N - 1
        invariant 0 <= i <= N && (i < N || N == 0)
        invariant Accumulated(F[..], t, N, i, i + 1)
        invariant out.energy == old(out.energy) + HalfSum(e, i, N)
        invariant F[3 * N..] == old(out.F[3 * N..])
      {
        AddRow(sqrt, cfg, out, i, e, t);
        AccumulatedNextRow(F[..], t, N, i);
        i := i + 1;
      }
      AccumulatedAtEnd(F[..], t, N, i);
      HalfSumAtEnd(e, i, N);
    }

    /** The whole evaluation: clear the forces, then add every pair once. */
    method ForceImpl(sqrt: real -> real, cfg: ForceInput, out: ForceOut)
      requires IsSqrt(sqrt)
      requires cfg.Valid() && Apart(Fields(), cfg)
      requires out.F.Length >= 3 * cfg.nAtoms
      modifies out`energy, out.F
      ensures out.energy == Energy(Fields(), cfg)
      ensures forall k :: 0 <= k < cfg.nAtoms ==> Atom(out.F[..], k) == ForceTables(Fields(), cfg).Final(cfg.nAtoms, k)
      ensures Net(out.F[..], cfg.nAtoms) == ZERO
      ensures out.F[3 * cfg.nAtoms..] == old(out.F[3 * cfg.nAtoms..])
    {
      ghost var e, t := EnergyFn(Fields(), cfg), ForceTables(Fields(), cfg);
      TablesMatchThemselves(Fields(), cfg);
      out.energy := 0.0;
      ClearForces(out.F, cfg.nAtoms);
      AccumulatedAtStart(out.F[..], t, cfg.nAtoms);
      AddRows(sqrt, cfg, out, e, t);
    }
  }

  method ClearForces(F: array<real>, N: nat)
    requires F.Length >= 3 * N
    modifies F
    ensures forall k :: 0 <= k < N ==> Atom(F[..], k) == ZERO
    ensures F[3 * N..] == old(F[3 * N..])
  {
    var i := 0;
    while i < N
      invariant 0 <= i <= N
      invariant forall q :: 0 <= q < 3 * i ==> F[q] == 0.0
      invariant F[3 * N..] == old(F[3 * N..])
    {
      F[3 * i] := 0.0;
      F[3 * i + 1] := 0.0;
      F[3 * i + 2] := 0.0;
      i := i + 1;
    }
  }
}
