/**
 Row-major tensors: the strides that the constructors compute in 64-bit
 arithmetic, and the mixed-radix correspondence between multi-indices and flat
 positions that they establish.
 */
module Tensor {

  // ---------- 64-bit arithmetic ----------

  const TWO_TO_63 := 0x8000_0000_0000_0000
  const TWO_TO_64 := 0x1_0000_0000_0000_0000

  predicate IsI64(x: int) { -TWO_TO_63 <= x < TWO_TO_63 }

  /** The 64-bit two's complement number congruent to x. */
  function Wrap64(x: int): (w: int)
    ensures IsI64(w)
  {
    (x + TWO_TO_63) % TWO_TO_64 - TWO_TO_63
  }

  ghost predicate Congruent(x: int, y: int)
  {
    exists k: int :: x - y == k * TWO_TO_64
  }

  lemma WrapIsCongruent(x: int)
    ensures Congruent(Wrap64(x), x)
  {
    assert Wrap64(x) - x == -((x + TWO_TO_63) / TWO_TO_64) * TWO_TO_64;
  }

  lemma CongruentWrapsEqual(x: int, y: int)
    requires Congruent(x, y)
    ensures Wrap64(x) == Wrap64(y)
  {
    var k: int :| x - y == k * TWO_TO_64;
  }

  lemma WrapOfSmall(x: int)
    requires IsI64(x)
    ensures Wrap64(x) == x
  {
  }

  /** Wrapping a factor first does not change a wrapped product. */
  lemma WrapOfProduct(x: int, y: int)
    ensures Wrap64(Wrap64(x) * y) == Wrap64(x * y)
  {
    WrapIsCongruent(x);
    var k: int :| Wrap64(x) - x == k * TWO_TO_64;
    assert Wrap64(x) * y - x * y == (k * y) * TWO_TO_64 by {
      assert (Wrap64(x) - x) * y == k * TWO_TO_64 * y;
    }
    CongruentWrapsEqual(Wrap64(x) * y, x * y);
  }

  // ---------- Strides ----------

  function Product(shape: seq<int>): int
  {
    if shape == [] then 1 else shape[0] * Product(shape[1..])
  }

  /** Each stride is the product of the later extents, in 64-bit arithmetic. */
  predicate RowMajor(shape: seq<int>, strides: seq<int>)
  {
    && |strides| == |shape|
    && forall i :: 0 <= i < |shape| ==> strides[i] == Wrap64(Product(shape[i + 1..]))
  }

  function RowMajorStrides(shape: seq<int>): (s: seq<int>)
    ensures RowMajor(shape, s)
  {
    seq(|shape|, i requires 0 <= i < |shape| => Wrap64(Product(shape[i + 1..])))
  }

  method ComputeRowMajorStrides(shape: seq<int>) returns (strides: seq<int>)
    requires forall x :: x in shape ==> IsI64(x)
    ensures strides == RowMajorStrides(shape)
  {
    var ndim := |shape|;
    if ndim == 0 {
      return [];
    }
    var s := new int[ndim](_ => 1);
    LastStride(shape);
    for i := ndim - 1 downto 0
      invariant forall k :: i <= k < ndim ==> s[k] == Wrap64(Product(shape[k + 1..]))
    {
      StrideStep(shape, i);
      s[i] := Wrap64(s[i + 1] * shape[i + 1]);
    }
    strides := s[..];
  }

  lemma LastStride(shape: seq<int>)
    requires shape != []
    ensures Wrap64(Product(shape[|shape|..])) == 1
  {
    assert shape[|shape|..] == [];
  }

  lemma StrideStep(shape: seq<int>, i: nat)
    requires i + 1 < |shape|
    ensures Wrap64(Product(shape[i + 1..])) == Wrap64(Wrap64(Product(shape[i + 2..])) * shape[i + 1])
  {
    var rest := shape[i + 1..];
    assert rest[1..] == shape[i + 2..];
    WrapOfProduct(Product(shape[i + 2..]), shape[i + 1]);
    assert Product(rest) == Product(shape[i + 2..]) * shape[i + 1];
  }

  // ---------- Multi-indices and flat positions ----------

  predicate Positive(shape: seq<int>)
  {
    forall i :: 0 <= i < |shape| ==> 0 < shape[i]
  }

  predicate InShape(index: seq<int>, shape: seq<int>)
  {
    |index| == |shape| && forall i :: 0 <= i < |shape| ==> 0 <= index[i] < shape[i]
  }

  /** Where the element with this index lies, in elements from the start of the buffer. */
  function Offset(index: seq<int>, strides: seq<int>): int
    requires |index| == |strides|
  {
    if index == [] then 0 else index[0] * strides[0] + Offset(index[1..], strides[1..])
  }

  /** The exact strides: no wrap-around. */
  function Strides(shape: seq<int>): (s: seq<int>)
    ensures |s| == |shape|
  {
    if shape == [] then [] else [Product(shape[1..])] + Strides(shape[1..])
  }

  lemma {:induction false} StridesAt(shape: seq<int>, i: nat)
    requires i < |shape|
    ensures Strides(shape)[i] == Product(shape[i + 1..])
  {
    if 0 < i {
      StridesAt(shape[1..], i - 1);
      assert shape[1..][i..] == shape[i + 1..];
    }
  }

  lemma {:induction false} ProductPositive(shape: seq<int>)
    requires Positive(shape)
    ensures 0 < Product(shape)
  {
    if shape != [] { ProductPositive(shape[1..]); }
  }

  /** Products of later extents are at most the whole product. */
  lemma {:induction false} TailProduct(shape: seq<int>, i: nat)
    requires Positive(shape) && i <= |shape|
    ensures 0 < Product(shape[i..]) <= Product(shape)
  {
    if 0 < i {
      TailProduct(shape[1..], i - 1);
      assert shape[1..][i - 1..] == shape[i..];
      ProductPositive(shape);
    } else {
      ProductPositive(shape);
      assert shape[0..] == shape;
    }
  }

  /** While the number of elements fits, the computed strides are the exact ones. */
  lemma ComputedStridesAreExact(shape: seq<int>, strides: seq<int>)
    requires Positive(shape) && Product(shape) < TWO_TO_63 && RowMajor(shape, strides)
    ensures strides == Strides(shape)
  {
    forall i | 0 <= i < |shape|
      ensures strides[i] == Strides(shape)[i]
    {
      StridesAt(shape, i);
      TailProduct(shape, i + 1);
      WrapOfSmall(Product(shape[i + 1..]));
    }
  }

  /** The multi-index of the element at flat position k. */
  function IndexOf(k: int, shape: seq<int>): (index: seq<int>)
    requires Positive(shape)
    ensures |index| == |shape|
    decreases |shape|
  {
    if shape == [] then [] else
      (ProductPositive(shape[1..]);
       var p := Product(shape[1..]);
       [k / p] + IndexOf(k % p, shape[1..]))
  }

  lemma MultipleOf(d: int, p: int)
    requires 0 < p
    ensures 1 <= d ==> p <= d * p
    ensures d <= 0 ==> d * p <= 0
    ensures d <= -1 ==> d * p <= -p
  {
  }

  lemma QuotientInRange(k: int, n: int, p: int)
    requires 0 <= k < n * p && 0 < p
    ensures 0 <= k / p < n && 0 <= k % p < p && k / p * p + k % p == k
  {
    assert (n - k / p) * p == n * p - k / p * p;
    MultipleOf(n - k / p, p);
  }

  lemma QuotientOfSum(q: int, r: int, p: int)
    requires 0 <= r < p
    ensures (q * p + r) / p == q && (q * p + r) % p == r
  {
    var k := q * p + r;
    var d := k / p - q;
    assert k / p * p + k % p == k;
    assert d * p == r - k % p;
    MultipleOf(d, p);
  }

  /** Every flat position is the offset of its multi-index. */
  lemma {:induction false} OffsetOfIndex(k: int, shape: seq<int>)
    requires Positive(shape) && 0 <= k < Product(shape)
    ensures InShape(IndexOf(k, shape), shape)
    ensures Offset(IndexOf(k, shape), Strides(shape)) == k
  {
    if shape != [] {
      ProductPositive(shape[1..]);
      var p := Product(shape[1..]);
      QuotientInRange(k, shape[0], p);
      OffsetOfIndex(k % p, shape[1..]);
      var index := IndexOf(k, shape);
      assert index[1..] == IndexOf(k % p, shape[1..]);
      forall i | 0 <= i < |shape|
        ensures 0 <= index[i] < shape[i]
      {
        if 0 < i { assert index[i] == index[1..][i - 1] && shape[i] == shape[1..][i - 1]; }
      }
    }
  }

  /** Every offset lies in the buffer and determines the multi-index. */
  lemma {:induction false} IndexOfOffset(index: seq<int>, shape: seq<int>)
    requires Positive(shape) && InShape(index, shape)
    ensures 0 <= Offset(index, Strides(shape)) < Product(shape)
    ensures IndexOf(Offset(index, Strides(shape)), shape) == index
  {
    if shape != [] {
      ProductPositive(shape[1..]);
      var p, r := Product(shape[1..]), Offset(index[1..], Strides(shape[1..]));
      IndexOfOffset(index[1..], shape[1..]);
      QuotientOfSum(index[0], r, p);
      OffsetBound(index[0], shape[0], r, p);
      assert index == [index[0]] + index[1..];
    }
  }

  lemma OffsetBound(q: int, n: int, r: int, p: int)
    requires 0 <= q < n && 0 <= r < p
    ensures 0 <= q * p + r < n * p
  {
    assert (q + 1) * p <= n * p;
    assert 0 <= q * p;
  }

  /** Component i of the multi-index is the quotient by stride i, modulo extent i. */
  lemma {:induction false} ComponentByDivision(k: int, shape: seq<int>, i: nat)
    requires Positive(shape) && 0 <= k < Product(shape) && i < |shape|
    ensures 0 < Strides(shape)[i]
    ensures IndexOf(k, shape)[i] == k / Strides(shape)[i] % shape[i]
  {
    ProductPositive(shape[1..]);
    var p := Product(shape[1..]);
    QuotientInRange(k, shape[0], p);
    if i == 0 {
      assert k / p % shape[0] == k / p;
    } else {
      ComponentByDivision(k % p, shape[1..], i - 1);
      var m := Divides(shape[1..], i - 1);
      SameDigit(k, p, Strides(shape)[i], shape[i], m);
    }
  }

  /** The product of all extents is a multiple of stride i times extent i. */
  lemma {:induction false} Divides(shape: seq<int>, i: nat) returns (m: int)
    requires Positive(shape) && i < |shape|
    ensures 0 < m && 0 < Strides(shape)[i] && Product(shape) == m * (Strides(shape)[i] * shape[i])
  {
    ProductPositive(shape[1..]);
    if i == 0 {
      m := 1;
    } else {
      var n := Divides(shape[1..], i - 1);
      m := Associate(shape[0], n, Strides(shape)[i] * shape[i], Product(shape[1..]));
    }
  }

  lemma Associate(a: int, n: int, e: int, p: int) returns (m: int)
    requires 0 < a && 0 < n && p == n * e
    ensures 0 < m && a * p == m * e
  {
    m := a * n;
  }

  lemma SameDigit(k: int, p: int, s: int, n: int, m: int)
    requires 0 < s && 0 < n && 0 < m && p == m * (s * n) && 0 <= k
    ensures k % p / s % n == k / s % n
  {
    assert 0 < s * n;
    assert 0 < p;
    var q, r := k / p, k % p;
    var a, b := r / s, r % s;
    assert k == (q * (m * n) + a) * s + b by {
      assert q * p == q * (m * n) * s;
    }
    QuotientOfSum(q * (m * n) + a, b, s);
    assert q * (m * n) == (q * m) * n;
    QuotientOfSum(q * m + a / n, a % n, n);
    assert (q * m + a / n) * n + a % n == q * (m * n) + a;
  }

  // ---------- Reading tensors ----------

  /** A tensor as its consumers see it: a buffer of elements with shape, strides and device. */
  datatype Device = Cpu | Other
  datatype DlTensor<T> = DlTensor(data: seq<T>, device: Device, shape: seq<int>, strides: seq<int>)

  /** What the constructors put together around a buffer, borrowed or copied. */
  function CpuTensor<T>(data: seq<T>, shape: seq<int>): (t: DlTensor<T>)
    ensures t.data == data && t.device == Cpu && t.shape == shape && RowMajor(shape, t.strides)
  {
    DlTensor(data, Cpu, shape, RowMajorStrides(shape))
  }

  /** What the constructors on the CPU build; the buffer may be longer than the shape needs. */
  ghost predicate Built<T>(t: DlTensor<T>)
  {
    && t.device == Cpu && Positive(t.shape) && Product(t.shape) < TWO_TO_63
    && RowMajor(t.shape, t.strides) && Product(t.shape) <= |t.data|
  }

  /** The element that DLPack assigns to a multi-index. */
  function ElementAt<T>(t: DlTensor<T>, index: seq<int>): T
    requires |index| == |t.strides| && 0 <= Offset(index, t.strides) < |t.data|
  {
    t.data[Offset(index, t.strides)]
  }

  /** Reading the buffer front to back meets the elements in the order of their multi-indices, each once. */
  lemma FlatReadsAreStrided<T>(t: DlTensor<T>, k: nat)
    requires Built(t) && k < Product(t.shape)
    ensures InShape(IndexOf(k, t.shape), t.shape) && Offset(IndexOf(k, t.shape), t.strides) == k
    ensures ElementAt(t, IndexOf(k, t.shape)) == t.data[k]
  {
    ComputedStridesAreExact(t.shape, t.strides);
    OffsetOfIndex(k, t.shape);
  }

  /** For an n by 3 tensor, element (i, c) is flat element 3 i + c. */
  lemma RowsOfThree<T>(t: DlTensor<T>, n: int, i: nat, c: nat)
    requires Built(t) && t.shape == [n, 3] && i < n && c < 3
    ensures Product(t.shape) == 3 * n && Offset([i, c], t.strides) == 3 * i + c
    ensures ElementAt(t, [i, c]) == t.data[3 * i + c]
  {
    ComputedStridesAreExact(t.shape, t.strides);
    assert t.shape[1..] == [3] && t.shape[1..][1..] == [];
    assert t.strides == [3, 1];
    assert [i, c][1..] == [c] && t.strides[1..] == [1];
    assert [i, c][1..][1..] == [];
    assert Offset([c], [1]) == c;
  }

  /** The number of elements that forces_data reports, in 64-bit unsigned arithmetic. */
  method ForcesData<T>(t: DlTensor<T>) returns (nElements: nat)
    requires forall x :: x in t.shape ==> IsI64(x)
    ensures nElements == Product(t.shape) % TWO_TO_64
    ensures Built(t) ==> nElements == Product(t.shape)
  {
    nElements := 1;
    var i := 0;
    while i < |t.shape|
      invariant 0 <= i <= |t.shape| && nElements < TWO_TO_64
      invariant nElements * Product(t.shape[i..]) % TWO_TO_64 == Product(t.shape) % TWO_TO_64
    {
      var extent := t.shape[i] % TWO_TO_64;
      assert t.shape[i..][1..] == t.shape[i + 1..];
      RemaindersMultiply(nElements, t.shape[i], Product(t.shape[i + 1..]));
      nElements := nElements * extent % TWO_TO_64;
      i := i + 1;
    }
    assert t.shape[i..] == [];
    if Positive(t.shape) { ProductPositive(t.shape); }
  }

  /** Reducing a factor and the product on the way does not change the remainder. */
  lemma RemaindersMultiply(a: int, b: int, c: int)
    ensures a * (b % TWO_TO_64) % TWO_TO_64 * c % TWO_TO_64 == a * (b * c) % TWO_TO_64
  {
    var p, q := b % TWO_TO_64, a * (b % TWO_TO_64) % TWO_TO_64;
    var d := Difference(a, b, c, b / TWO_TO_64, p, a * p / TWO_TO_64, q);
    SameRemainders(a * (b * c), q * c, d);
  }

  lemma Difference(a: int, b: int, c: int, k: int, p: int, l: int, q: int) returns (d: int)
    requires b == k * TWO_TO_64 + p && a * p == l * TWO_TO_64 + q
    ensures a * (b * c) == q * c + d * TWO_TO_64
  {
    var e := a * k;
    d := (e + l) * c;
    assert a * b == e * TWO_TO_64 + a * p;
    assert a * b == (e + l) * TWO_TO_64 + q;
    assert a * (b * c) == a * b * c;
    Distributes(e + l, q, c);
  }

  lemma Distributes(x: int, q: int, c: int)
    ensures (x * TWO_TO_64 + q) * c == q * c + x * c * TWO_TO_64
  {
  }

  lemma SameRemainders(x: int, y: int, d: int)
    requires x == y + d * TWO_TO_64
    ensures y % TWO_TO_64 == x % TWO_TO_64
  {
  }
}
