/** Renumbering the atoms, and what it does to sums over rows and over unordered pairs. */
module Permutations {
  import opened PairSums

  function Iota(n: nat): (s: seq<int>)
    ensures |s| == n && forall k :: 0 <= k < n ==> s[k] == k
  {
    seq(n, k => k)
  }

  /** perm lists each of 0, ..., n - 1 once. */
  ghost predicate IsPermutation(perm: seq<int>, n: nat)
  {
    multiset(perm) == multiset(Iota(n))
  }

  lemma PermutationFacts(perm: seq<int>, n: nat)
    requires IsPermutation(perm, n)
    ensures |perm| == n
    ensures forall k :: 0 <= k < n ==> 0 <= perm[k] < n
    ensures forall k, m :: 0 <= k < m < n ==> perm[k] != perm[m]
  {
    assert |multiset(perm)| == |multiset(Iota(n))|;
    forall k | 0 <= k < n
      ensures 0 <= perm[k] < n
    {
      assert perm[k] in multiset(perm);
      assert perm[k] in Iota(n);
    }
    forall k, m | 0 <= k < m < n
      ensures perm[k] != perm[m]
    {
      if perm[k] == perm[m] {
        assert perm == perm[..m] + [perm[m]] + perm[m + 1..];
        assert perm[k] in perm[..m];
        assert multiset(perm)[perm[m]] >= 2;
        IotaCounts(n, perm[m]);
      }
    }
  }

  lemma {:induction false} IotaCounts(n: nat, x: int)
    ensures multiset(Iota(n))[x] <= 1
  {
    if 0 < n {
      IotaCounts(n - 1, x);
      assert Iota(n) == Iota(n - 1) + [n - 1];
      if x == n - 1 { assert x !in Iota(n - 1); }
    }
  }

  /** perm with its entries at a and b exchanged. */
  function Exchange(perm: seq<int>, a: nat, b: nat): seq<int>
    requires a < |perm| && b < |perm|
  {
    perm[a := perm[b]][b := perm[a]]
  }

  lemma ExchangeIsPermutation(perm: seq<int>, n: nat, a: nat, b: nat)
    requires IsPermutation(perm, n) && a < |perm| && b < |perm|
    ensures IsPermutation(Exchange(perm, a, b), n)
  {
  }

  /** A numbering that puts a first. */
  lemma Leading(n: nat, a: nat) returns (perm: seq<int>)
    requires a < n
    ensures IsPermutation(perm, n) && |perm| == n && perm[0] == a
  {
    perm := Exchange(Iota(n), 0, a);
    ExchangeIsPermutation(Iota(n), n, 0, a);
  }

  /** A numbering that puts a first and b second. */
  lemma LeadingPair(n: nat, a: nat, b: nat) returns (perm: seq<int>)
    requires a < n && b < n && a != b
    ensures IsPermutation(perm, n) && |perm| == n && perm[0] == a && perm[1] == b
  {
    var first := Leading(n, a);
    PermutationFacts(first, n);
    assert Iota(n)[b] in multiset(Iota(n));
    assert b in multiset(first);
    var m :| 0 <= m < n && first[m] == b;
    perm := Exchange(first, 1, m);
    ExchangeIsPermutation(first, n, 1, m);
  }

  // ---------- Sums over a reordered index set ----------

  lemma {:induction false} SumOverRemove(g: int -> real, s: seq<int>, at: nat)
    requires at < |s|
    ensures SumOver(g, s) == SumOver(g, s[..at] + s[at + 1..]) + g(s[at])
    decreases |s|
  {
    var last := |s| - 1;
    var front := s[..last];
    if at == last {
      assert s[..at] + s[at + 1..] == front;
    } else {
      SumOverRemove(g, front, at);
      var rest := s[..at] + s[at + 1..];
      assert rest[..|rest| - 1] == front[..at] + front[at + 1..];
      assert rest[|rest| - 1] == s[last];
    }
  }

  /** A sum does not depend on the order of its terms. */
  lemma {:induction false} SumOverReordered(g: int -> real, a: seq<int>, b: seq<int>)
    requires multiset(a) == multiset(b)
    ensures SumOver(g, a) == SumOver(g, b)
    decreases |a|
  {
    assert |multiset(a)| == |a| && |multiset(b)| == |b|;
    if |a| != 0 {
      var x := a[|a| - 1];
      assert a == a[..|a| - 1] + [x];
      assert x in multiset(b);
      var at :| 0 <= at < |b| && b[at] == x;
      var rest := b[..at] + b[at + 1..];
      assert b == b[..at] + [x] + b[at + 1..];
      assert multiset(rest) == multiset(b) - multiset{x};
      SumOverReordered(g, a[..|a| - 1], rest);
      SumOverRemove(g, b, at);
    }
  }

  // ---------- Renumbered tables ----------

  /** g is the table f with its rows and columns renumbered by perm. */
  ghost predicate Renumbers(f: PairFn, g: PairFn, perm: seq<int>, n: nat)
  {
    && IsPermutation(perm, n) && |perm| == n
    && forall i, j :: 0 <= i < n && 0 <= j < n ==> g(i, j) == f(perm[i], perm[j])
  }

  /** Row i of f with the diagonal removed. */
  function Others(f: PairFn, i: int): int -> real
  {
    j => if j == i then 0.0 else f(i, j)
  }

  lemma {:induction false} OthersAlong(f: PairFn, g: PairFn, perm: seq<int>, n: nat, i: nat, m: nat)
    requires Renumbers(f, g, perm, n) && i < n && m <= n
    ensures SumOver(Others(f, perm[i]), perm[..m]) ==
            RowSum(g, i, 0, Min(m, i)) + RowSum(g, i, i + 1, m)
    decreases m
  {
    if 0 < m {
      OthersAlong(f, g, perm, n, i, m - 1);
      assert perm[..m][..m - 1] == perm[..m - 1];
      PermutationFacts(perm, n);
      if m - 1 != i { assert g(i, m - 1) == f(perm[i], perm[m - 1]); }
    }
  }

  /** The per-atom sum of a renumbered table is the per-atom sum of the original atom. */
  lemma {:induction false} PerAtomRenumbered(f: PairFn, g: PairFn, perm: seq<int>, n: nat, i: nat)
    requires Renumbers(f, g, perm, n) && i < n
    ensures 0 <= perm[i] < n
    ensures PerAtom(g, n, i) == PerAtom(f, n, perm[i])
  {
    PermutationFacts(perm, n);
    OthersAlong(f, g, perm, n, i, n);
    assert perm[..n] == perm;
    SumOverReordered(Others(f, perm[i]), perm, Iota(n));
    assert Renumbers(f, f, Iota(n), n);
    OthersAlong(f, f, Iota(n), n, perm[i], n);
    assert Iota(n)[..n] == Iota(n);
  }

  function PerAtomFn(f: PairFn, n: int): int -> real
  {
    k => PerAtom(f, n, k)
  }

  ghost predicate Symmetric(f: PairFn, n: nat)
  {
    forall i, j :: 0 <= i < n && 0 <= j < n ==> f(i, j) == f(j, i)
  }

  lemma {:induction false} RowIsColumn(f: PairFn, n: nat, m: nat, k: nat)
    requires Symmetric(f, n) && m <= n && k < n
    ensures RowSum(f, k, 0, m) == ColSum(f, 0, m, k)
    decreases m
  {
    if 0 < m { RowIsColumn(f, n, m - 1, k); }
  }

  /** Over a symmetric table the per-atom sums of the first m atoms count each of their pairs from both ends. */
  lemma {:induction false} PerAtomTotal(f: PairFn, n: nat, m: nat)
    requires Symmetric(f, n) && m <= n
    ensures SumOver(PerAtomFn(f, n), Iota(m)) == HalfSum(f, m, n) + HalfSum(f, m, m)
    decreases m
  {
    if 0 < m {
      PerAtomTotal(f, n, m - 1);
      assert Iota(m)[..m - 1] == Iota(m - 1);
      RowIsColumn(f, n, m - 1, m - 1);
      HalfSumGrows(f, m - 1, m - 1);
    }
  }

  lemma {:induction false} PerAtomTotalAlong(f: PairFn, g: PairFn, perm: seq<int>, n: nat, m: nat)
    requires Renumbers(f, g, perm, n) && m <= n
    ensures SumOver(PerAtomFn(g, n), Iota(m)) == SumOver(PerAtomFn(f, n), perm[..m])
    decreases m
  {
    if 0 < m {
      PerAtomTotalAlong(f, g, perm, n, m - 1);
      assert Iota(m)[..m - 1] == Iota(m - 1);
      assert perm[..m][..m - 1] == perm[..m - 1];
      PerAtomRenumbered(f, g, perm, n, m - 1);
    }
  }

  /** The sum of a symmetric table over unordered pairs does not depend on the numbering. */
  lemma HalfSumRenumbered(f: PairFn, g: PairFn, perm: seq<int>, n: nat)
    requires Renumbers(f, g, perm, n) && Symmetric(f, n)
    ensures HalfSum(g, n, n) == HalfSum(f, n, n)
  {
    PermutationFacts(perm, n);
    assert Symmetric(g, n);
    PerAtomTotal(f, n, n);
    PerAtomTotal(g, n, n);
    PerAtomTotalAlong(f, g, perm, n, n);
    assert perm[..n] == perm;
    SumOverReordered(PerAtomFn(f, n), perm, Iota(n));
  }
}
