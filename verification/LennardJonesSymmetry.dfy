/**
 What the Lennard-Jones loop computes, independently of how it runs: its relation
 to the per-atom definition of a force, and how the result behaves when atoms are
 renumbered or moved by whole boxes.
 */
module LennardJonesSymmetry {
  import opened PairSums
  import opened Permutations
  import opened MinimumImage
  import opened LennardJones

  // ---------- Exchanging the two atoms of a pair ----------

  lemma WrappedSwapped(cfg: ForceInput, i: nat, j: nat, c: nat)
    requires cfg.Valid() && cfg.InRange(i, j) && c < 3
    ensures cfg.Wrapped(j, i, c) ==
            if IsTie(cfg.Displacement(i, j, c), cfg.Length(c)) then cfg.Wrapped(i, j, c) else -cfg.Wrapped(i, j, c)
    ensures cfg.Wrapped(j, i, c) * cfg.Wrapped(j, i, c) == cfg.Wrapped(i, j, c) * cfg.Wrapped(i, j, c)
  {
    assert cfg.Displacement(j, i, c) == -cfg.Displacement(i, j, c);
    WrapReversed(cfg.Displacement(i, j, c), cfg.Length(c));
  }

  lemma SquareSwapped(cfg: ForceInput, i: nat, j: nat)
    requires cfg.Valid() && cfg.InRange(i, j)
    ensures cfg.Square(j, i) == cfg.Square(i, j)
  {
    WrappedSwapped(cfg, i, j, 0);
    WrappedSwapped(cfg, i, j, 1);
    WrappedSwapped(cfg, i, j, 2);
  }

  lemma EnergyIsSymmetric(p: Params, cfg: ForceInput)
    requires cfg.Valid()
    ensures Symmetric(EnergyFn(p, cfg), cfg.nAtoms)
  {
    forall i: int, j: int | 0 <= i < cfg.nAtoms && 0 <= j < cfg.nAtoms
      ensures EnergyFn(p, cfg)(i, j) == EnergyFn(p, cfg)(j, i)
    {
      SquareSwapped(cfg, i, j);
    }
  }

  /** A pair that exerts a force along c and is exactly half a box apart in that direction. */
  ghost predicate ActiveTie(p: Params, cfg: ForceInput, i: nat, j: nat, c: nat)
    requires cfg.Valid() && cfg.InRange(i, j) && c < 3
  {
    && Interacts(p, cfg, i, j)
    && IsTie(cfg.Displacement(i, j, c), cfg.Length(c))
    && ForceScale(p, cfg.Square(i, j)) != 0.0
  }

  ghost predicate NoActiveTies(p: Params, cfg: ForceInput, c: nat)
    requires cfg.Valid() && c < 3
  {
    forall i: nat, j: nat :: i < cfg.nAtoms && j < cfg.nAtoms && i != j ==> !ActiveTie(p, cfg, i, j, c)
  }

  /** A pair exerts no force at all exactly when the well is flat, the radius is zero, or a is 1/2. */
  lemma ForceScaleZero(p: Params, s: real)
    requires s > 0.0
    ensures ForceScale(p, s) == 0.0 <==> p.u0 == 0.0 || p.psi == 0.0 || Attraction(p, s) == 0.5
  {
    var a, r := Attraction(p, s), Recip(s);
    assert r > 0.0;
    assert r * r * r > 0.0;
    Pow6Zero(p.psi);
    ProductZero(Pow6(p.psi), r * r * r);
    assert a == 0.0 <==> p.psi == 0.0;
    ProductZero(a, 2.0 * a - 1.0);
    ProductZero(24.0 * p.u0, a * (2.0 * a - 1.0));
    ProductZero(24.0 * p.u0 * (a * (2.0 * a - 1.0)), r);
  }

  lemma ProductZero(x: real, y: real)
    ensures x * y == 0.0 <==> x == 0.0 || y == 0.0
  {
    if x != 0.0 && x * y == 0.0 { assert x * y / x == y; }
  }

  lemma Pow6Zero(x: real)
    ensures Pow6(x) == 0.0 <==> x == 0.0
    ensures Pow6(x) >= 0.0
  {
    ProductZero(x, x);
    ProductZero(x * x, x);
    ProductZero(x * x * x, x * x * x);
  }

  lemma ForcesOfSwapped(p: Params, s: real, w: real, v: real, tie: bool, length: real)
    requires length != 0.0 && v == (if tie then w else -w) && (tie ==> 2.0 * w == -length)
    ensures PairForce(p, s, w) + PairForce(p, s, v) == if tie then -(ForceScale(p, s) * length) else 0.0
    ensures ForceScale(p, s) * length == 0.0 <==> ForceScale(p, s) == 0.0
  {
    var scale := ForceScale(p, s);
    assert scale * w + scale * v == scale * (w + v);
    ProductZero(scale, length);
  }

  /** What the two forces of a pair fail to cancel: a whole box length at an active tie, otherwise nothing. */
  lemma DefectOfPair(p: Params, cfg: ForceInput, i: nat, j: nat, c: nat)
    requires cfg.Valid() && cfg.InRange(i, j) && c < 3
    ensures Defect(ForceFn(p, cfg, c))(i, j) ==
            if ActiveTie(p, cfg, i, j, c) then -(ForceScale(p, cfg.Square(i, j)) * cfg.Length(c)) else 0.0
    ensures Defect(ForceFn(p, cfg, c))(i, j) != 0.0 <==> ActiveTie(p, cfg, i, j, c)
  {
    DefectIsSum(ForceFn(p, cfg, c), i, j);
    SquareSwapped(cfg, i, j);
    if Interacts(p, cfg, i, j) {
      DefectOfInteraction(p, cfg, i, j, c);
    } else {
      EntryIsZero(p, cfg, i, j, c);
      EntryIsZero(p, cfg, j, i, c);
    }
  }

  lemma DefectOfInteraction(p: Params, cfg: ForceInput, i: nat, j: nat, c: nat)
    requires cfg.Valid() && cfg.InRange(i, j) && c < 3
    requires Interacts(p, cfg, i, j) && cfg.Square(j, i) == cfg.Square(i, j)
    ensures ForceFn(p, cfg, c)(i, j) + ForceFn(p, cfg, c)(j, i) ==
            if ActiveTie(p, cfg, i, j, c) then -(ForceScale(p, cfg.Square(i, j)) * cfg.Length(c)) else 0.0
    ensures ActiveTie(p, cfg, i, j, c) ==> ForceScale(p, cfg.Square(i, j)) * cfg.Length(c) != 0.0
  {
    WrappedSwapped(cfg, i, j, c);
    EntryIsForce(p, cfg, i, j, c);
    EntryIsForce(p, cfg, j, i, c);
    ForcesOfSwapped(p, cfg.Square(i, j), cfg.Wrapped(i, j, c), cfg.Wrapped(j, i, c),
                    IsTie(cfg.Displacement(i, j, c), cfg.Length(c)), cfg.Length(c));
  }

  lemma DefectIsSum(f: PairFn, i: int, j: int)
    ensures Defect(f)(i, j) == f(i, j) + f(j, i)
  {
  }

  lemma EntryIsZero(p: Params, cfg: ForceInput, i: nat, j: nat, c: nat)
    requires cfg.Valid() && c < 3 && !Interacts(p, cfg, i, j)
    ensures ForceFn(p, cfg, c)(i, j) == 0.0
  {
  }

  lemma EntryIsForce(p: Params, cfg: ForceInput, i: nat, j: nat, c: nat)
    requires cfg.Valid() && c < 3 && Interacts(p, cfg, i, j)
    ensures ForceFn(p, cfg, c)(i, j) == PairForce(p, cfg.Square(i, j), cfg.Wrapped(i, j, c))
  {
  }

  // ---------- The loop against the per-atom definition ----------

  /** For every configuration, the computed force is the per-atom force less the defects with earlier atoms. */
  lemma ForceIsPerAtomLessDefects(p: Params, cfg: ForceInput, k: nat, c: nat)
    requires cfg.Valid() && k < cfg.nAtoms && c < 3
    ensures Force(p, cfg, k, c) == PerAtomForce(p, cfg, k, c) - ColSum(Defect(ForceFn(p, cfg, c)), 0, k, k)
  {
    PairedIsPerAtomLessDefects(ForceFn(p, cfg, c), cfg.nAtoms, k);
  }

  /** Without active ties every force is the sum over all other atoms of the pair force seen from that atom. */
  lemma ForceIsPerAtom(p: Params, cfg: ForceInput, k: nat, c: nat)
    requires cfg.Valid() && k < cfg.nAtoms && c < 3 && NoActiveTies(p, cfg, c)
    ensures Force(p, cfg, k, c) == PerAtomForce(p, cfg, k, c)
  {
    ForceIsPerAtomLessDefects(p, cfg, k, c);
    var none: PairFn := (i, j) => 0.0;
    forall i | 0 <= i < k
      ensures Defect(ForceFn(p, cfg, c))(i, k) == none(i, k)
    {
      DefectOfPair(p, cfg, i, k, c);
    }
    ColSumCongruent(Defect(ForceFn(p, cfg, c)), none, 0, k, k);
    ColSumOfZeros(none, k, k);
  }

  lemma ColSumOfZeros(f: PairFn, hi: nat, j: int)
    requires forall i :: 0 <= i < hi ==> f(i, j) == 0.0
    ensures ColSum(f, 0, hi, j) == 0.0
  {
    if 0 < hi { ColSumOfZeros(f, hi - 1, j); }
  }

  // ---------- Renumbering the atoms ----------

  /** Atom k of other is atom perm[k] of cfg, in the same cell. */
  ghost predicate IsRenumbering(cfg: ForceInput, other: ForceInput, perm: seq<int>)
  {
    && cfg.Valid() && other.Valid()
    && other.nAtoms == cfg.nAtoms && other.box == cfg.box
    && IsPermutation(perm, cfg.nAtoms) && |perm| == cfg.nAtoms
    && (forall k :: 0 <= k < cfg.nAtoms ==> 0 <= perm[k] < cfg.nAtoms && SameAtom(cfg, other, perm[k], k))
  }

  ghost predicate SameAtom(cfg: ForceInput, other: ForceInput, k: nat, m: nat)
    requires cfg.Valid() && other.Valid() && k < cfg.nAtoms && m < other.nAtoms
  {
    && other.pos[3 * m] == cfg.pos[3 * k]
    && other.pos[3 * m + 1] == cfg.pos[3 * k + 1]
    && other.pos[3 * m + 2] == cfg.pos[3 * k + 2]
  }

  /** The renumbered configuration exists. */
  lemma Renumber(cfg: ForceInput, perm: seq<int>) returns (other: ForceInput)
    requires cfg.Valid() && IsPermutation(perm, cfg.nAtoms)
    ensures IsRenumbering(cfg, other, perm)
  {
    PermutationFacts(perm, cfg.nAtoms);
    var n := cfg.nAtoms;
    var pos: seq<real> := [];
    var k := 0;
    while k < n
      invariant 0 <= k <= n && |pos| == 3 * k
      invariant forall m :: 0 <= m < k ==>
        pos[3 * m] == cfg.pos[3 * perm[m]] && pos[3 * m + 1] == cfg.pos[3 * perm[m] + 1] && pos[3 * m + 2] == cfg.pos[3 * perm[m] + 2]
    {
      pos := pos + [cfg.pos[3 * perm[k]], cfg.pos[3 * perm[k] + 1], cfg.pos[3 * perm[k] + 2]];
      k := k + 1;
    }
    other := cfg.(pos := pos);
  }

  lemma PairOfRenumbering(cfg: ForceInput, other: ForceInput, perm: seq<int>, i: nat, j: nat)
    requires IsRenumbering(cfg, other, perm) && i < cfg.nAtoms && j < cfg.nAtoms
    ensures forall c: nat :: c < 3 ==> other.Wrapped(i, j, c) == cfg.Wrapped(perm[i], perm[j], c)
    ensures other.Square(i, j) == cfg.Square(perm[i], perm[j])
  {
    assert SameAtom(cfg, other, perm[i], i) && SameAtom(cfg, other, perm[j], j);
    forall c: nat | c < 3
      ensures other.Wrapped(i, j, c) == cfg.Wrapped(perm[i], perm[j], c)
    {
      assert c == 0 || c == 1 || c == 2;
      assert other.Displacement(i, j, c) == cfg.Displacement(perm[i], perm[j], c);
    }
  }

  lemma TablesOfRenumbering(p: Params, cfg: ForceInput, other: ForceInput, perm: seq<int>)
    requires IsRenumbering(cfg, other, perm)
    ensures Renumbers(EnergyFn(p, cfg), EnergyFn(p, other), perm, cfg.nAtoms)
    ensures forall c: nat :: c < 3 ==> Renumbers(ForceFn(p, cfg, c), ForceFn(p, other, c), perm, cfg.nAtoms)
  {
    forall i: int, j: int | 0 <= i < cfg.nAtoms && 0 <= j < cfg.nAtoms
      ensures EnergyFn(p, other)(i, j) == EnergyFn(p, cfg)(perm[i], perm[j])
    {
      PairOfRenumbering(cfg, other, perm, i, j);
    }
    forall c: nat | c < 3
      ensures Renumbers(ForceFn(p, cfg, c), ForceFn(p, other, c), perm, cfg.nAtoms)
    {
      forall i: int, j: int | 0 <= i < cfg.nAtoms && 0 <= j < cfg.nAtoms
        ensures ForceFn(p, other, c)(i, j) == ForceFn(p, cfg, c)(perm[i], perm[j])
      {
        PairOfRenumbering(cfg, other, perm, i, j);
      }
    }
  }

  /** The energy does not depend on the numbering of the atoms, ties or not. */
  lemma EnergyOfRenumbering(p: Params, cfg: ForceInput, other: ForceInput, perm: seq<int>)
    requires IsRenumbering(cfg, other, perm)
    ensures Energy(p, other) == Energy(p, cfg)
  {
    TablesOfRenumbering(p, cfg, other, perm);
    EnergyIsSymmetric(p, cfg);
    HalfSumRenumbered(EnergyFn(p, cfg), EnergyFn(p, other), perm, cfg.nAtoms);
  }

  lemma PerAtomForceOfRenumbering(p: Params, cfg: ForceInput, other: ForceInput, perm: seq<int>, k: nat, c: nat)
    requires IsRenumbering(cfg, other, perm) && k < cfg.nAtoms && c < 3
    ensures PerAtomForce(p, other, k, c) == PerAtomForce(p, cfg, perm[k], c)
  {
    TablesOfRenumbering(p, cfg, other, perm);
    PerAtomRenumbered(ForceFn(p, cfg, c), ForceFn(p, other, c), perm, cfg.nAtoms, k);
  }

  /** Under the numbering of other, every atom keeps its force along c. */
  ghost predicate ForcesFollow(p: Params, cfg: ForceInput, other: ForceInput, perm: seq<int>, c: nat)
    requires IsRenumbering(cfg, other, perm) && c < 3
  {
    forall k: nat :: k < cfg.nAtoms ==> Force(p, other, k, c) == Force(p, cfg, perm[k], c)
  }

  /** Every renumbering permutes the forces along c. */
  ghost predicate NumberingIrrelevant(p: Params, cfg: ForceInput, c: nat)
    requires cfg.Valid() && c < 3
  {
    forall other: ForceInput, perm: seq<int> :: IsRenumbering(cfg, other, perm) ==> ForcesFollow(p, cfg, other, perm, c)
  }

  lemma TiesOfRenumbering(p: Params, cfg: ForceInput, other: ForceInput, perm: seq<int>, c: nat)
    requires IsRenumbering(cfg, other, perm) && c < 3 && NoActiveTies(p, cfg, c)
    ensures NoActiveTies(p, other, c)
  {
    forall i: nat, j: nat | i < cfg.nAtoms && j < cfg.nAtoms && i != j
      ensures !ActiveTie(p, other, i, j, c)
    {
      PermutationFacts(perm, cfg.nAtoms);
      TablesOfRenumbering(p, cfg, other, perm);
      DefectOfPair(p, other, i, j, c);
      DefectOfPair(p, cfg, perm[i], perm[j], c);
    }
  }

  /** The first atom of a numbering always gets its per-atom force. */
  lemma FirstForce(p: Params, cfg: ForceInput, c: nat)
    requires cfg.Valid() && 0 < cfg.nAtoms && c < 3
    ensures Force(p, cfg, 0, c) == PerAtomForce(p, cfg, 0, c)
  {
    ForceIsPerAtomLessDefects(p, cfg, 0, c);
  }

  /** The second atom of a numbering misses the defect with the first. */
  lemma SecondForce(p: Params, cfg: ForceInput, c: nat)
    requires cfg.Valid() && 1 < cfg.nAtoms && c < 3
    ensures Force(p, cfg, 1, c) == PerAtomForce(p, cfg, 1, c) - Defect(ForceFn(p, cfg, c))(0, 1)
  {
    ForceIsPerAtomLessDefects(p, cfg, 1, c);
  }

  /** An active tie is seen by the numbering that puts its two atoms first. */
  lemma TieBreaksNumbering(p: Params, cfg: ForceInput, i: nat, k: nat, c: nat)
    requires cfg.Valid() && c < 3 && i < cfg.nAtoms && k < cfg.nAtoms && i != k
    requires ActiveTie(p, cfg, i, k, c)
    ensures !NumberingIrrelevant(p, cfg, c)
  {
    var n := cfg.nAtoms;
    var perm1 := Leading(n, k);
    var first := Renumber(cfg, perm1);
    var perm2 := LeadingPair(n, i, k);
    var second := Renumber(cfg, perm2);
    FirstForce(p, first, c);
    PerAtomForceOfRenumbering(p, cfg, first, perm1, 0, c);
    SecondForce(p, second, c);
    PerAtomForceOfRenumbering(p, cfg, second, perm2, 1, c);
    TablesOfRenumbering(p, cfg, second, perm2);
    DefectOfPair(p, cfg, i, k, c);
    assert Force(p, first, 0, c) != Force(p, second, 1, c);
    assert !ForcesFollow(p, cfg, first, perm1, c) || !ForcesFollow(p, cfg, second, perm2, c);
  }

  /** The numbering of the atoms is irrelevant to the forces exactly when no interacting pair is at an active tie. */
  lemma NumberingTheorem(p: Params, cfg: ForceInput, c: nat)
    requires cfg.Valid() && c < 3
    ensures NumberingIrrelevant(p, cfg, c) <==> NoActiveTies(p, cfg, c)
  {
    if NoActiveTies(p, cfg, c) {
      forall other: ForceInput, perm: seq<int> | IsRenumbering(cfg, other, perm)
        ensures ForcesFollow(p, cfg, other, perm, c)
      {
        TiesOfRenumbering(p, cfg, other, perm, c);
        forall k: nat | k < cfg.nAtoms
          ensures Force(p, other, k, c) == Force(p, cfg, perm[k], c)
        {
          ForceIsPerAtom(p, other, k, c);
          ForceIsPerAtom(p, cfg, perm[k], c);
          PerAtomForceOfRenumbering(p, cfg, other, perm, k, c);
        }
      }
    } else {
      var i: nat, j: nat :| i < cfg.nAtoms && j < cfg.nAtoms && i != j && ActiveTie(p, cfg, i, j, c);
      TieBreaksNumbering(p, cfg, i, j, c);
    }
  }

  /** Two atoms half a box apart along x, in a cube of length four. */
  const TIED_PAIR := ForceInput(2, [0.0, 0.0, 0.0, 2.0, 0.0, 0.0], [1, 1], [4.0, 0.0, 0.0, 0.0, 4.0, 0.0, 0.0, 0.0, 4.0])

  /** With the constants of the constructor, whatever cuttOffU holds, the numbering of this pair matters along x. */
  lemma NumberingOfTiedPairMatters(leftOver: real)
    ensures TIED_PAIR.Valid() && Apart(Params(1.0, 15.0, 1.0, leftOver), TIED_PAIR)
    ensures ActiveTie(Params(1.0, 15.0, 1.0, leftOver), TIED_PAIR, 0, 1, 0)
    ensures !NumberingIrrelevant(Params(1.0, 15.0, 1.0, leftOver), TIED_PAIR, 0)
  {
    var p := Params(1.0, 15.0, 1.0, leftOver);
    FloorUnique(0.0 / 4.0 + 0.5, 0);
    FloorUnique(-2.0 / 4.0 + 0.5, 0);
    assert TIED_PAIR.Wrapped(0, 1, 0) == -2.0;
    assert TIED_PAIR.Wrapped(0, 1, 1) == 0.0 && TIED_PAIR.Wrapped(0, 1, 2) == 0.0;
    assert TIED_PAIR.Square(0, 1) == 4.0;
    ForceOfTiedPair(p);
    assert ActiveTie(p, TIED_PAIR, 0, 1, 0) && !NoActiveTies(p, TIED_PAIR, 0);
    NumberingTheorem(p, TIED_PAIR, 0);
  }

  lemma ForceOfTiedPair(p: Params)
    requires p.u0 == 1.0 && p.psi == 1.0
    ensures ForceScale(p, 4.0) != 0.0
  {
    assert Recip(4.0) == 0.25;
    assert Pow6(1.0) == 1.0;
    assert Attraction(p, 4.0) == 0.015625;
    ForceScaleZero(p, 4.0);
  }

  // ---------- Moving atoms by whole boxes, and everything together ----------

  /** In other, atom k is moved by its own number of boxes along x, y and z, and by the common vector. */
  ghost predicate AtomMoved(cfg: ForceInput, other: ForceInput, boxes: (int, int) -> int, common: int -> real, k: nat)
    requires cfg.Valid() && other.Valid() && k < cfg.nAtoms == other.nAtoms
  {
    && other.pos[3 * k] == cfg.pos[3 * k] + cfg.box[0] * boxes(k, 0) as real + common(0)
    && other.pos[3 * k + 1] == cfg.pos[3 * k + 1] + cfg.box[4] * boxes(k, 1) as real + common(1)
    && other.pos[3 * k + 2] == cfg.pos[3 * k + 2] + cfg.box[8] * boxes(k, 2) as real + common(2)
  }

  ghost predicate IsMoved(cfg: ForceInput, other: ForceInput, boxes: (int, int) -> int, common: int -> real)
  {
    && cfg.Valid() && other.Valid()
    && other.nAtoms == cfg.nAtoms && other.box == cfg.box
    && forall k: nat :: k < cfg.nAtoms ==> AtomMoved(cfg, other, boxes, common, k)
  }

  lemma CoordinateMoved(cfg: ForceInput, other: ForceInput, boxes: (int, int) -> int, common: int -> real, k: nat, c: nat)
    requires IsMoved(cfg, other, boxes, common) && k < cfg.nAtoms && c < 3
    ensures other.pos[3 * k + c] == cfg.pos[3 * k + c] + cfg.Length(c) * boxes(k, c) as real + common(c)
  {
    assert AtomMoved(cfg, other, boxes, common, k);
  }

  lemma PairOfMoved(cfg: ForceInput, other: ForceInput, boxes: (int, int) -> int, common: int -> real, i: nat, j: nat, c: nat)
    requires IsMoved(cfg, other, boxes, common) && i < cfg.nAtoms && j < cfg.nAtoms && c < 3
    ensures other.Wrapped(i, j, c) == cfg.Wrapped(i, j, c)
  {
    CoordinateMoved(cfg, other, boxes, common, i, c);
    CoordinateMoved(cfg, other, boxes, common, j, c);
    var d, length, m := cfg.Displacement(i, j, c), cfg.Length(c), boxes(i, c) - boxes(j, c);
    assert length * m as real == length * boxes(i, c) as real - length * boxes(j, c) as real;
    assert other.Displacement(i, j, c) == d + length * m as real;
    WrapShift(d, length, m);
  }

  /** Neither the energy nor any force notices such a move. */
  lemma MovedTheorem(p: Params, cfg: ForceInput, other: ForceInput, boxes: (int, int) -> int, common: int -> real)
    requires IsMoved(cfg, other, boxes, common)
    ensures Energy(p, other) == Energy(p, cfg)
    ensures forall k: nat, c: nat :: k < cfg.nAtoms && c < 3 ==> Force(p, other, k, c) == Force(p, cfg, k, c)
  {
    var n := cfg.nAtoms;
    forall i: nat, j: nat | i < n && j < n
      ensures other.Square(i, j) == cfg.Square(i, j)
      ensures forall c: nat :: c < 3 ==> other.Wrapped(i, j, c) == cfg.Wrapped(i, j, c)
    {
      forall c: nat | c < 3
        ensures other.Wrapped(i, j, c) == cfg.Wrapped(i, j, c)
      {
        PairOfMoved(cfg, other, boxes, common, i, j, c);
      }
    }
    HalfSumCongruent(EnergyFn(p, other), EnergyFn(p, cfg), n, n);
    forall k: nat, c: nat | k < n && c < 3
      ensures Force(p, other, k, c) == Force(p, cfg, k, c)
    {
      RowSumCongruent(ForceFn(p, other, c), ForceFn(p, cfg, c), k, k + 1, n);
      ColSumCongruent(ForceFn(p, other, c), ForceFn(p, cfg, c), 0, k, k);
    }
  }

  /** Two atoms at y = 0 and 9 in a cell of 10 by 10 by 30: their nearest images are at distance one. */
  ghost predicate AcrossY(cfg: ForceInput)
  {
    && cfg.nAtoms == 2 && |cfg.pos| == 6 && |cfg.box| == 9
    && (forall q :: 0 <= q < 6 ==> cfg.pos[q] == if q == 4 then 9.0 else 0.0)
    && cfg.box[0] == 10.0 && cfg.box[4] == 10.0 && cfg.box[8] == 30.0
  }

  lemma NearestAcrossY(p: Params, cfg: ForceInput)
    requires p.cuttOffR == 15.0 && AcrossY(cfg)
    ensures cfg.Valid() && cfg.nAtoms == 2 && Interacts(p, cfg, 0, 1)
    ensures cfg.Square(0, 1) == 1.0 && cfg.Wrapped(0, 1, 1) == 1.0
  {
    FloorUnique(0.0 / 10.0 + 0.5, 0);
    FloorUnique(0.0 / 30.0 + 0.5, 0);
    FloorUnique(-9.0 / 10.0 + 0.5, -1);
    assert cfg.Wrapped(0, 1, 1) == 1.0;
    assert cfg.Wrapped(0, 1, 0) == 0.0 && cfg.Wrapped(0, 1, 2) == 0.0;
  }

  /** With the constants of the constructor the two atoms push each other apart through the cell boundary, with force 24. */
  lemma ForcesAcrossY(p: Params, cfg: ForceInput)
    requires p.u0 == 1.0 && p.cuttOffR == 15.0 && p.psi == 1.0 && AcrossY(cfg)
    ensures cfg.Valid() && Energy(p, cfg) == -p.cuttOffU
    ensures Force(p, cfg, 0, 1) == 24.0 && Force(p, cfg, 1, 1) == -24.0
  {
    NearestAcrossY(p, cfg);
    UnitDistance(p, cfg, 1);
  }

  lemma UnitDistance(p: Params, cfg: ForceInput, c: nat)
    requires p.u0 == 1.0 && p.psi == 1.0 && cfg.Valid() && cfg.nAtoms == 2 && c < 3 && Interacts(p, cfg, 0, 1)
    requires cfg.Square(0, 1) == 1.0 && cfg.Wrapped(0, 1, c) == 1.0
    ensures Energy(p, cfg) == -p.cuttOffU && Force(p, cfg, 0, c) == 24.0 && Force(p, cfg, 1, c) == -24.0
  {
    UnitPair(p);
    OneInteraction(p, cfg, c, 1.0, 1.0);
  }

  lemma UnitPair(p: Params)
    requires p.u0 == 1.0 && p.psi == 1.0
    ensures PairEnergy(p, 1.0) == -p.cuttOffU && PairForce(p, 1.0, 1.0) == 24.0
  {
    assert Recip(1.0) == 1.0 && Pow6(1.0) == 1.0;
    assert Attraction(p, 1.0) == 1.0;
  }

  /** With two atoms there is one pair. */
  lemma OneInteraction(p: Params, cfg: ForceInput, c: nat, s: real, w: real)
    requires cfg.Valid() && cfg.nAtoms == 2 && c < 3 && Interacts(p, cfg, 0, 1)
    requires s == cfg.Square(0, 1) && w == cfg.Wrapped(0, 1, c)
    ensures Energy(p, cfg) == PairEnergy(p, s)
    ensures Force(p, cfg, 0, c) == PairForce(p, s, w) && Force(p, cfg, 1, c) == -PairForce(p, s, w)
  {
    var e, f := EnergyFn(p, cfg), ForceFn(p, cfg, c);
    assert e(0, 1) == PairEnergy(p, s);
    EntryIsForce(p, cfg, 0, 1, c);
    OnePair(e, f);
  }

  /** What a table of two atoms adds up to. */
  lemma OnePair(e: PairFn, f: PairFn)
    ensures HalfSum(e, 2, 2) == e(0, 1) && Paired(f, 2, 0) == f(0, 1) && Paired(f, 2, 1) == -f(0, 1)
  {
    assert RowSum(e, 0, 1, 2) == RowSum(e, 0, 1, 1) + e(0, 1);
    assert RowSum(e, 1, 2, 2) == 0.0;
    assert HalfSum(e, 2, 2) == HalfSum(e, 1, 2) + RowSum(e, 1, 2, 2);
    assert HalfSum(e, 1, 2) == HalfSum(e, 0, 2) + RowSum(e, 0, 1, 2);
    assert RowSum(f, 0, 1, 2) == RowSum(f, 0, 1, 1) + f(0, 1);
    assert ColSum(f, 0, 1, 1) == ColSum(f, 0, 0, 1) + f(0, 1);
    assert ColSum(f, 0, 0, 0) == 0.0 && RowSum(f, 1, 2, 2) == 0.0;
  }

  // ---------- The depth of the well ----------

  /** 1 for an interacting pair, otherwise 0. */
  ghost function CountFn(p: Params, cfg: ForceInput): PairFn
    requires cfg.Valid()
  {
    (i, j) => if cfg.Valid() && Interacts(p, cfg, i, j) then 1.0 else 0.0
  }

  /** The number of interacting pairs. */
  ghost function PairCount(p: Params, cfg: ForceInput): real
    requires cfg.Valid()
  {
    HalfSum(CountFn(p, cfg), cfg.nAtoms, cfg.nAtoms)
  }

  /** How far a pair sits above the bottom of its well. */
  ghost function ExcessFn(p: Params, cfg: ForceInput): PairFn
    requires cfg.Valid()
  {
    (i, j) => if cfg.Valid() && Interacts(p, cfg, i, j) then Excess(p, cfg.Square(i, j)) else 0.0
  }

  function Excess(p: Params, s: real): real
  {
    var b := 2.0 * Attraction(p, s) - 1.0;
    p.u0 * (b * b)
  }

  lemma PairEnergyIsExcess(p: Params, s: real)
    ensures PairEnergy(p, s) == Excess(p, s) - (p.u0 + p.cuttOffU)
    ensures p.u0 >= 0.0 ==> Excess(p, s) >= 0.0
    ensures p.u0 > 0.0 ==> (Excess(p, s) == 0.0 <==> Attraction(p, s) == 0.5)
  {
    var a := Attraction(p, s);
    var b := 2.0 * a - 1.0;
    assert b * b == 4.0 * (a * (a - 1.0)) + 1.0;
    assert p.u0 * (b * b) == 4.0 * p.u0 * (a * (a - 1.0)) + p.u0;
    assert b * b >= 0.0;
    ProductZero(b, b);
    ProductZero(p.u0, b * b);
  }

  lemma EnergyIsExcess(p: Params, cfg: ForceInput)
    requires cfg.Valid()
    ensures Energy(p, cfg) ==
            HalfSum(ExcessFn(p, cfg), cfg.nAtoms, cfg.nAtoms) - (p.u0 + p.cuttOffU) * PairCount(p, cfg)
  {
    var n, depth := cfg.nAtoms, -(p.u0 + p.cuttOffU);
    forall i: nat, j: nat | i < n && j < n
      ensures EnergyFn(p, cfg)(i, j) == ExcessFn(p, cfg)(i, j) + Scaled(depth, CountFn(p, cfg))(i, j)
    {
      if Interacts(p, cfg, i, j) { PairEnergyIsExcess(p, cfg.Square(i, j)); }
    }
    HalfSumAdds(ExcessFn(p, cfg), Scaled(depth, CountFn(p, cfg)), EnergyFn(p, cfg), n, n);
    HalfSumScales(depth, CountFn(p, cfg), n, n);
  }

  /** Every interacting pair sits at the bottom of its well. */
  ghost predicate AllAtBottom(p: Params, cfg: ForceInput)
    requires cfg.Valid()
  {
    forall i: nat, j: nat :: i < j < cfg.nAtoms && Interacts(p, cfg, i, j) ==> Attraction(p, cfg.Square(i, j)) == 0.5
  }

  /** The energy is at least the depth of all wells together, and reaches it exactly at the bottom of every well. */
  lemma EnergyBound(p: Params, cfg: ForceInput)
    requires cfg.Valid() && p.u0 >= 0.0
    ensures Energy(p, cfg) >= -((p.u0 + p.cuttOffU) * PairCount(p, cfg))
    ensures p.u0 > 0.0 ==> (Energy(p, cfg) == -((p.u0 + p.cuttOffU) * PairCount(p, cfg)) <==> AllAtBottom(p, cfg))
    ensures 0.0 <= 2.0 * PairCount(p, cfg) <= (cfg.nAtoms * (cfg.nAtoms - 1)) as real
  {
    var n: int, f := cfg.nAtoms, ExcessFn(p, cfg);
    EnergyIsExcess(p, cfg);
    forall i: nat, j: nat | i < n && j < n
      ensures f(i, j) >= 0.0
      ensures p.u0 > 0.0 && Interacts(p, cfg, i, j) ==> (f(i, j) == 0.0 <==> Attraction(p, cfg.Square(i, j)) == 0.5)
    {
      if Interacts(p, cfg, i, j) { PairEnergyIsExcess(p, cfg.Square(i, j)); }
    }
    HalfSumNonNegative(f, n, n);
    HalfSumOfOnes(CountFn(p, cfg), n, n);
    assert n * (2 * n - n - 1) == n * (n - 1);
  }

  /** At the bottom of every well no atom feels a force. */
  lemma BottomIsForceFree(p: Params, cfg: ForceInput, k: nat, c: nat)
    requires cfg.Valid() && AllAtBottom(p, cfg) && k < cfg.nAtoms && c < 3
    ensures Force(p, cfg, k, c) == 0.0
  {
    var f, n := ForceFn(p, cfg, c), cfg.nAtoms;
    forall i: nat, j: nat | i < j < n
      ensures f(i, j) == 0.0
    {
      if Interacts(p, cfg, i, j) {
        var s := cfg.Square(i, j);
        var a := Attraction(p, s);
        assert a * (2.0 * a - 1.0) == 0.0;
        assert ForceScale(p, s) == 0.0;
      }
    }
    RowSumNonNegative(f, k, k + 1, n);
    ColSumOfZeros(f, k, k);
  }
}
