/**
 Sums over rows, columns and unordered pairs of an N by N table of reals.  The
 table is given by a function, so nothing here depends on what a pair
 contributes.
 */
module PairSums {

  type PairFn = (int, int) -> real

  /** The sum of f(i, j) over lo <= j < hi. */
  function RowSum(f: PairFn, i: int, lo: int, hi: int): real
    decreases hi - lo
  {
    if hi <= lo then 0.0 else RowSum(f, i, lo, hi - 1) + f(i, hi - 1)
  }

  /** The sum of f(i, j) over lo <= i < hi. */
  function ColSum(f: PairFn, lo: int, hi: int, j: int): real
    decreases hi - lo
  {
    if hi <= lo then 0.0 else ColSum(f, lo, hi - 1, j) + f(hi - 1, j)
  }

  /** The sum of f(i, j) over i < rows and i < j < n. */
  function HalfSum(f: PairFn, rows: int, n: int): real
    decreases rows
  {
    if rows <= 0 then 0.0 else HalfSum(f, rows - 1, n) + RowSum(f, rows - 1, rows, n)
  }

  /** The sum of g over the elements of s. */
  function SumOver(g: int -> real, s: seq<int>): real
  {
    if |s| == 0 then 0.0 else SumOver(g, s[..|s| - 1]) + g(s[|s| - 1])
  }

  /** What atom k collects from a half-pair traversal that adds f(i, j) to i and subtracts it from j. */
  function Paired(f: PairFn, n: int, k: int): real
  {
    RowSum(f, k, k + 1, n) - ColSum(f, 0, k, k)
  }

  /** What atom k collects from every other atom, each seen from k. */
  function PerAtom(f: PairFn, n: int, k: int): real
  {
    RowSum(f, k, 0, k) + RowSum(f, k, k + 1, n)
  }

  /** How far f is from antisymmetric at (i, j). */
  function Defect(f: PairFn): PairFn
  {
    (i, j) => f(i, j) + f(j, i)
  }

  /** What the pair (i, j) adds to atom k. */
  function Share(f: PairFn, i: int, j: int, k: int): real
  {
    if k == i then f(i, j) else if k == j then -f(i, j) else 0.0
  }

  /** What atom k has collected once the rows before i are complete and row i has reached column j. */
  function PairedAfter(f: PairFn, n: int, i: nat, j: int, k: int): real
    decreases i, j - i
  {
    if i + 1 < j then PairedAfter(f, n, i, j - 1, k) + Share(f, i, j - 1, k)
    else if i == 0 then 0.0
    else PairedAfter(f, n, i - 1, n, k)
  }

  function Min(a: int, b: int): int { if a < b then a else b }

  // ---------- Congruence ----------

  lemma RowSumCongruent(f: PairFn, g: PairFn, i: int, lo: int, hi: int)
    requires forall j :: lo <= j < hi ==> f(i, j) == g(i, j)
    ensures RowSum(f, i, lo, hi) == RowSum(g, i, lo, hi)
    decreases hi - lo
  {
    if lo < hi { RowSumCongruent(f, g, i, lo, hi - 1); }
  }

  lemma ColSumCongruent(f: PairFn, g: PairFn, lo: int, hi: int, j: int)
    requires forall i :: lo <= i < hi ==> f(i, j) == g(i, j)
    ensures ColSum(f, lo, hi, j) == ColSum(g, lo, hi, j)
    decreases hi - lo
  {
    if lo < hi { ColSumCongruent(f, g, lo, hi - 1, j); }
  }

  lemma HalfSumCongruent(f: PairFn, g: PairFn, rows: int, n: int)
    requires forall i, j :: 0 <= i < rows && i < j < n ==> f(i, j) == g(i, j)
    ensures HalfSum(f, rows, n) == HalfSum(g, rows, n)
    decreases rows
  {
    if 0 < rows {
      HalfSumCongruent(f, g, rows - 1, n);
      RowSumCongruent(f, g, rows - 1, rows, n);
    }
  }

  // ---------- Half-pair traversal against per-atom sums ----------

  /** The half-pair traversal differs from the per-atom sum by the defects with the atoms before k. */
  lemma {:induction false} PairedIsPerAtomLessDefects(f: PairFn, n: int, k: int)
    ensures Paired(f, n, k) == PerAtom(f, n, k) - ColSum(Defect(f), 0, k, k)
  {
    RowPlusColumn(f, k, k);
  }

  lemma {:induction false} RowPlusColumn(f: PairFn, m: int, k: int)
    ensures RowSum(f, k, 0, m) + ColSum(f, 0, m, k) == ColSum(Defect(f), 0, m, k)
    decreases m
  {
    if 0 < m { RowPlusColumn(f, m - 1, k); }
  }

  /** Adding one column to the half table adds that column's sum. */
  lemma {:induction false} HalfSumGrows(f: PairFn, rows: int, n: int)
    requires 0 <= rows <= n
    ensures HalfSum(f, rows, n + 1) == HalfSum(f, rows, n) + ColSum(f, 0, rows, n)
    decreases rows
  {
    if 0 < rows { HalfSumGrows(f, rows - 1, n); }
  }

  /** The last row of the half table is empty. */
  lemma HalfSumAtEnd(f: PairFn, i: int, n: int)
    requires i == n - 1 || i == n == 0
    ensures HalfSum(f, n, n) == HalfSum(f, i, n)
  {
  }

  /** If only the pairs that contain atom k contribute, the half table is row k plus column k. */
  lemma {:induction false} HalfSumOfOneAtom(g: PairFn, rows: int, n: int, k: int)
    requires 0 <= rows <= n && 0 <= k < n
    requires forall i, j :: 0 <= i < j < n && i != k && j != k ==> g(i, j) == 0.0
    ensures HalfSum(g, rows, n) == ColSum(g, 0, Min(rows, k), k) + if k < rows then RowSum(g, k, k + 1, n) else 0.0
    decreases rows
  {
    if 0 < rows {
      HalfSumOfOneAtom(g, rows - 1, n, k);
      var i := rows - 1;
      if i != k { RowOfOneAtom(g, i, i + 1, n, k); }
    }
  }

  lemma {:induction false} RowOfOneAtom(g: PairFn, i: int, lo: int, hi: int, k: int)
    requires lo <= hi && i != k
    requires forall j :: lo <= j < hi && j != k ==> g(i, j) == 0.0
    ensures RowSum(g, i, lo, hi) == if lo <= k < hi then g(i, k) else 0.0
    decreases hi - lo
  {
    if lo < hi { RowOfOneAtom(g, i, lo, hi - 1, k); }
  }

  // ---------- The net sum ----------

  /** The sum over the first m atoms of what they have collected. */
  function NetAfter(f: PairFn, n: int, i: nat, j: int, m: int): real
    decreases m
  {
    if m <= 0 then 0.0 else NetAfter(f, n, i, j, m - 1) + PairedAfter(f, n, i, j, m - 1)
  }

  /** The traversal state in closed form: part of row k less part of column k. */
  lemma {:induction false} PairedAfterClosed(f: PairFn, n: int, i: nat, j: int, k: nat)
    requires i < n && i < j <= n && k < n
    ensures PairedAfter(f, n, i, j, k) ==
            RowSum(f, k, k + 1, if k < i then n else if k == i then j else k + 1)
            - ColSum(f, 0, Min(k, if k < j then i + 1 else i), k)
    decreases i, j - i
  {
    if i + 1 < j {
      PairedAfterClosed(f, n, i, j - 1, k);
    } else if 0 < i {
      PairedAfterClosed(f, n, i - 1, n, k);
    }
  }

  /** After the last row atom k holds row k less column k. */
  lemma PairedAtEnd(f: PairFn, n: int, k: nat)
    requires k < n
    ensures PairedAfter(f, n, n - 1, n, k) == Paired(f, n, k)
  {
    PairedAfterClosed(f, n, n - 1, n, k);
  }

  lemma {:induction false} NetStep(f: PairFn, n: int, i: nat, j: int, m: int)
    requires i < j < n && 0 <= m <= n
    ensures NetAfter(f, n, i, j + 1, m) ==
            NetAfter(f, n, i, j, m) + (if i < m <= j then f(i, j) else 0.0)
    decreases m
  {
    if 0 < m { NetStep(f, n, i, j, m - 1); }
  }

  lemma {:induction false} NetNextRow(f: PairFn, n: int, i: nat, m: int)
    requires i < n && 0 <= m <= n
    ensures NetAfter(f, n, i, n, m) == NetAfter(f, n, i + 1, i + 2, m)
    decreases m
  {
    if 0 < m { NetNextRow(f, n, i, m - 1); }
  }

  lemma {:induction false} NetAtStart(f: PairFn, n: int, m: int)
    requires 0 <= m <= n
    ensures NetAfter(f, n, 0, 1, m) == 0.0
    decreases m
  {
    if 0 < m { NetAtStart(f, n, m - 1); }
  }

  /** Whatever f is, the amounts collected by all atoms cancel after every inner step. */
  lemma {:induction false} NetIsZero(f: PairFn, n: int, i: nat, j: int)
    requires i < n && i < j <= n
    ensures NetAfter(f, n, i, j, n) == 0.0
    decreases i, j
  {
    if i + 1 < j {
      NetIsZero(f, n, i, j - 1);
      NetStep(f, n, i, j - 1, n);
    } else if i == 0 {
      NetAtStart(f, n, n);
    } else {
      NetIsZero(f, n, i - 1, n);
      NetNextRow(f, n, i - 1, n);
    }
  }

  // ---------- Nonnegative tables ----------

  lemma {:induction false} RowSumNonNegative(f: PairFn, i: int, lo: int, hi: int)
    requires forall j :: lo <= j < hi ==> f(i, j) >= 0.0
    ensures RowSum(f, i, lo, hi) >= 0.0
    ensures RowSum(f, i, lo, hi) == 0.0 <==> forall j :: lo <= j < hi ==> f(i, j) == 0.0
    decreases hi - lo
  {
    if lo < hi { RowSumNonNegative(f, i, lo, hi - 1); }
  }

  /** A half table of nonnegative entries sums to zero exactly when every entry is zero. */
  lemma {:induction false} HalfSumNonNegative(f: PairFn, rows: int, n: int)
    requires forall i, j :: 0 <= i < rows && i < j < n ==> f(i, j) >= 0.0
    ensures HalfSum(f, rows, n) >= 0.0
    ensures HalfSum(f, rows, n) == 0.0 <==> forall i, j :: 0 <= i < rows && i < j < n ==> f(i, j) == 0.0
    decreases rows
  {
    if 0 < rows {
      HalfSumNonNegative(f, rows - 1, n);
      RowSumNonNegative(f, rows - 1, rows, n);
    }
  }

  lemma {:induction false} RowSumAdds(f: PairFn, g: PairFn, h: PairFn, i: int, lo: int, hi: int)
    requires forall j :: lo <= j < hi ==> h(i, j) == f(i, j) + g(i, j)
    ensures RowSum(h, i, lo, hi) == RowSum(f, i, lo, hi) + RowSum(g, i, lo, hi)
    decreases hi - lo
  {
    if lo < hi { RowSumAdds(f, g, h, i, lo, hi - 1); }
  }

  lemma {:induction false} HalfSumAdds(f: PairFn, g: PairFn, h: PairFn, rows: int, n: int)
    requires forall i, j :: 0 <= i < rows && i < j < n ==> h(i, j) == f(i, j) + g(i, j)
    ensures HalfSum(h, rows, n) == HalfSum(f, rows, n) + HalfSum(g, rows, n)
    decreases rows
  {
    if 0 < rows {
      HalfSumAdds(f, g, h, rows - 1, n);
      RowSumAdds(f, g, h, rows - 1, rows, n);
    }
  }

  function Scaled(c: real, g: PairFn): PairFn
  {
    (i, j) => c * g(i, j)
  }

  lemma {:induction false} RowSumScales(c: real, g: PairFn, i: int, lo: int, hi: int)
    ensures RowSum(Scaled(c, g), i, lo, hi) == c * RowSum(g, i, lo, hi)
    decreases hi - lo
  {
    if lo < hi {
      RowSumScales(c, g, i, lo, hi - 1);
      Distributes(c, RowSum(g, i, lo, hi - 1), g(i, hi - 1));
    }
  }

  lemma {:induction false} HalfSumScales(c: real, g: PairFn, rows: int, n: int)
    ensures HalfSum(Scaled(c, g), rows, n) == c * HalfSum(g, rows, n)
    decreases rows
  {
    if 0 < rows {
      HalfSumScales(c, g, rows - 1, n);
      RowSumScales(c, g, rows - 1, rows, n);
      Distributes(c, HalfSum(g, rows - 1, n), RowSum(g, rows - 1, rows, n));
    }
  }

  lemma Distributes(c: real, x: real, y: real)
    ensures c * (x + y) == c * x + c * y
  {
  }

  lemma {:induction false} HalfSumOfOnes(g: PairFn, rows: int, n: int)
    requires 0 <= rows <= n
    requires forall i, j :: 0 <= i < rows && i < j < n ==> 0.0 <= g(i, j) <= 1.0
    ensures 0.0 <= 2.0 * HalfSum(g, rows, n) <= (rows * (2 * n - rows - 1)) as real
    decreases rows
  {
    if 0 < rows {
      HalfSumOfOnes(g, rows - 1, n);
      RowOfOnes(g, rows - 1, rows, n);
      assert rows * (2 * n - rows - 1) == (rows - 1) * (2 * n - (rows - 1) - 1) + 2 * (n - rows);
    }
  }

  lemma {:induction false} RowOfOnes(g: PairFn, i: int, lo: int, hi: int)
    requires lo <= hi
    requires forall j :: lo <= j < hi ==> 0.0 <= g(i, j) <= 1.0
    ensures 0.0 <= RowSum(g, i, lo, hi) <= (hi - lo) as real
    decreases hi - lo
  {
    if lo < hi { RowOfOnes(g, i, lo, hi - 1); }
  }

  // ---------- Negation ----------

  lemma {:induction false} RowSumNegates(f: PairFn, g: PairFn, i: int, lo: int, hi: int)
    requires forall j :: lo <= j < hi ==> g(i, j) == -f(i, j)
    ensures RowSum(g, i, lo, hi) == -RowSum(f, i, lo, hi)
    decreases hi - lo
  {
    if lo < hi { RowSumNegates(f, g, i, lo, hi - 1); }
  }
}
