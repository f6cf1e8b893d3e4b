/** The flat force buffer: three consecutive entries for each atom, filled pair by pair. */
module ForceBuffer {
  import opened PairSums

  datatype Vec = Vec(x: real, y: real, z: real)

  function Plus(u: Vec, v: Vec): Vec { Vec(u.x + v.x, u.y + v.y, u.z + v.z) }

  function Minus(u: Vec, v: Vec): Vec { Vec(u.x - v.x, u.y - v.y, u.z - v.z) }

  const ZERO := Vec(0.0, 0.0, 0.0)

  /** The three entries of atom k. */
  function Atom(F: seq<real>, k: nat): Vec
    requires 3 * k + 2 < |F|
  {
    Vec(F[3 * k], F[3 * k + 1], F[3 * k + 2])
  }

  /** One pair table for each direction. */
  datatype Tables = Tables(x: PairFn, y: PairFn, z: PairFn)
  {
    function At(i: int, j: int): Vec { Vec(x(i, j), y(i, j), z(i, j)) }

    /** What atom k holds once rows before i are complete and row i has reached column j. */
    function After(n: int, i: nat, j: int, k: int): Vec
    {
      Vec(PairedAfter(x, n, i, j, k), PairedAfter(y, n, i, j, k), PairedAfter(z, n, i, j, k))
    }

    /** What atom k holds after the traversal. */
    function Final(n: int, k: int): Vec
    {
      Vec(Paired(x, n, k), Paired(y, n, k), Paired(z, n, k))
    }
  }

  /** The buffer once rows before i are complete and row i has reached column j. */
  predicate Accumulated(F: seq<real>, t: Tables, n: nat, i: nat, j: int)
  {
    && |F| >= 3 * n
    && forall k :: 0 <= k < n ==> Atom(F, k) == t.After(n, i, j, k)
  }

  /** G is F with v added to atom i and taken from atom j, and nothing else changed. */
  predicate PairAdded(F: seq<real>, G: seq<real>, n: nat, i: nat, j: nat, v: Vec)
    requires i < n && j < n && |F| >= 3 * n
  {
    && |G| == |F|
    && Atom(G, i) == Plus(Atom(F, i), v)
    && Atom(G, j) == Minus(Atom(F, j), v)
    && (forall k :: 0 <= k < n && k != i && k != j ==> Atom(G, k) == Atom(F, k))
    && G[3 * n..] == F[3 * n..]
  }

  /** The six updates of the inner loop: take g from atom i and add it to atom j. */
  method Exchange(F: array<real>, ghost n: nat, i: nat, j: nat, gX: real, gY: real, gZ: real)
    requires i < j < n && F.Length >= 3 * n
    modifies F
    ensures PairAdded(old(F[..]), F[..], n, i, j, Vec(-gX, -gY, -gZ))
  {
    F[3 * i] := F[3 * i] - gX;
    F[3 * i + 1] := F[3 * i + 1] - gY;
    F[3 * i + 2] := F[3 * i + 2] - gZ;

    F[3 * j] := F[3 * j] + gX;
    F[3 * j + 1] := F[3 * j + 1] + gY;
    F[3 * j + 2] := F[3 * j + 2] + gZ;
    assert forall q :: 0 <= q < F.Length && !(3 * i <= q < 3 * i + 3) && !(3 * j <= q < 3 * j + 3) ==> F[q] == old(F[q]);
  }

  /** Adding the pair (i, j) moves the traversal one column on. */
  lemma AccumulatedStep(F: seq<real>, G: seq<real>, t: Tables, n: nat, i: nat, j: nat)
    requires i < j < n && Accumulated(F, t, n, i, j)
    requires PairAdded(F, G, n, i, j, t.At(i, j))
    ensures Accumulated(G, t, n, i, j + 1)
  {
    var next := j + 1;
    forall k | 0 <= k < n
      ensures Atom(G, k) == t.After(n, i, next, k)
    {
      assert Atom(F, k) == t.After(n, i, j, k);
    }
  }

  /** A pair that contributes nothing leaves the buffer as it is. */
  lemma NothingAdded(F: seq<real>, n: nat, i: nat, j: nat)
    requires i < n && j < n && |F| >= 3 * n
    ensures PairAdded(F, F, n, i, j, ZERO)
  {
  }

  lemma AccumulatedNextRow(F: seq<real>, t: Tables, n: nat, i: nat)
    requires i < n && Accumulated(F, t, n, i, n)
    ensures Accumulated(F, t, n, i + 1, i + 2)
  {
    var row, col := i + 1, i + 2;
    forall k | 0 <= k < n
      ensures Atom(F, k) == t.After(n, row, col, k)
    {
      assert Atom(F, k) == t.After(n, i, n, k);
    }
  }

  /** A buffer of zeros is where the traversal starts. */
  lemma AccumulatedAtStart(F: seq<real>, t: Tables, n: nat)
    requires |F| >= 3 * n && forall k :: 0 <= k < n ==> Atom(F, k) == ZERO
    ensures Accumulated(F, t, n, 0, 1)
  {
    forall k | 0 <= k < n
      ensures Atom(F, k) == t.After(n, 0, 1, k)
    {
    }
  }

  /** The sum over the first m atoms of the buffer. */
  function Net(F: seq<real>, m: nat): Vec
    requires 3 * m <= |F|
  {
    if m == 0 then ZERO else Plus(Net(F, m - 1), Atom(F, m - 1))
  }

  /** Whatever the pair tables are, the atoms sum to zero after every inner step. */
  lemma NetForceIsZero(F: seq<real>, t: Tables, n: nat, i: nat, j: nat)
    requires i < n && i < j <= n && Accumulated(F, t, n, i, j)
    ensures Net(F, n) == ZERO
  {
    NetIsZero(t.x, n, i, j);
    NetIsZero(t.y, n, i, j);
    NetIsZero(t.z, n, i, j);
    NetIsNetAfter(F, t, n, i, j, n);
  }

  lemma {:induction false} NetIsNetAfter(F: seq<real>, t: Tables, n: nat, i: nat, j: nat, m: nat)
    requires i < j <= n && Accumulated(F, t, n, i, j) && m <= n
    ensures Net(F, m) == Vec(NetAfter(t.x, n, i, j, m), NetAfter(t.y, n, i, j, m), NetAfter(t.z, n, i, j, m))
  {
    if 0 < m {
      NetIsNetAfter(F, t, n, i, j, m - 1);
      assert Atom(F, m - 1) == t.After(n, i, j, m - 1);
    }
  }

  /** Once the last row is reached the traversal is complete. */
  lemma AccumulatedAtEnd(F: seq<real>, t: Tables, n: nat, i: nat)
    requires Accumulated(F, t, n, i, i + 1) && (i == n - 1 || n == 0)
    ensures forall k :: 0 <= k < n ==> Atom(F, k) == t.Final(n, k)
    ensures Net(F, n) == ZERO
  {
    forall k | 0 <= k < n
      ensures Atom(F, k) == t.Final(n, k)
    {
      assert Atom(F, k) == t.After(n, i, n, k);
      PairedAtEnd(t.x, n, k);
      PairedAtEnd(t.y, n, k);
      PairedAtEnd(t.z, n, k);
    }
    if 0 < n { NetForceIsZero(F, t, n, i, n); }
  }
}
