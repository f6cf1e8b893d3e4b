/**
 What the Rust core allocates for its callers: tensors that own or borrow their
 data, and potential handles that may own their user data.
 */
module Allocation {

  /** An address; zero is the null pointer. Addresses are never handed out twice. */
  type Ptr = nat
  const NULL: Ptr := 0

  datatype Storage = Borrowed(buffer: Ptr) | Owned(buffer: Ptr)

  datatype Impl = Impl(userData: Ptr, hasFree: bool)
  {
    /** Dropping the handle calls free_fn. */
    predicate Releases()
    {
      hasFree && userData != NULL
    }
  }

  /**
   Live tensors, live potential handles, live data buffers, the handles whose free_fn was called, and the next
   address. Freeing something that is not live sets corrupt.
   */
  datatype Alloc = Alloc(tensors: map<Ptr, Storage>, impls: map<Ptr, Impl>, buffers: set<Ptr>,
                         released: multiset<Ptr>, next: Ptr, corrupt: bool)

  /** p is a live tensor around a buffer that it does not own. */
  predicate Lends(a: Alloc, p: Ptr, buffer: Ptr)
  {
    p != NULL && p in a.tensors && a.tensors[p] == Borrowed(buffer)
  }

  /** p is a live tensor that owns a live copy of its data. */
  predicate Owns(a: Alloc, p: Ptr)
  {
    p != NULL && p in a.tensors && a.tensors[p].Owned? && a.tensors[p].buffer in a.buffers
  }

  // ---------- Freeing ----------

  /** rgpot_tensor_free with the borrowed or the owning deleter. */
  function FreeTensor(a: Alloc, p: Ptr): Alloc
  {
    if p == NULL then a
    else if p !in a.tensors then a.(corrupt := true)
    else match a.tensors[p]
      case Borrowed(_) => a.(tensors := a.tensors - {p})
      case Owned(b) => a.(tensors := a.tensors - {p}, buffers := a.buffers - {b}, corrupt := a.corrupt || b !in a.buffers)
  }

  /** rgpot_potential_free: drops the handle, and with it the user data it owns. */
  function FreeImpl(a: Alloc, p: Ptr): Alloc
  {
    if p == NULL then a
    else if p !in a.impls then a.(corrupt := true)
    else a.(impls := a.impls - {p}, released := if a.impls[p].Releases() then a.released + multiset{p} else a.released)
  }

  // ---------- Allocating ----------

  function NewBorrowed(a: Alloc, buffer: Ptr): Alloc
  {
    a.(tensors := a.tensors[a.next := Borrowed(buffer)], next := a.next + 1)
  }

  /** The copied data lies at the next address, the tensor after it. */
  function NewOwned(a: Alloc): Alloc
  {
    a.(tensors := a.tensors[a.next + 1 := Owned(a.next)], buffers := a.buffers + {a.next}, next := a.next + 2)
  }

  function NewImpl(a: Alloc, userData: Ptr, hasFree: bool): Alloc
  {
    a.(impls := a.impls[a.next := Impl(userData, hasFree)], next := a.next + 1)
  }

  /** All live addresses have been handed out, so the next one is fresh. */
  ghost predicate Ordered(a: Alloc)
  {
    0 < a.next && forall p :: p in a.tensors || p in a.impls || p in a.buffers ==> 0 < p < a.next
  }

  /** p is not null and was not live in a. */
  predicate FreshIn(a: Alloc, p: Ptr)
  {
    p != NULL && p !in a.tensors && p !in a.impls && p !in a.buffers
  }

  // ---------- What every step keeps ----------

  /** caller holds the addresses of the buffers that the callers own; adopted, every handle ever created. */
  datatype Ledger = Ledger(caller: set<Ptr>, adopted: map<Ptr, Impl>)

  ghost predicate AddressesBelowNext(a: Alloc, l: Ledger)
  {
    && 0 < a.next
    && (forall p :: p in a.tensors || p in a.buffers || p in l.adopted ==> 0 < p < a.next)
  }

  predicate OwnsBuffer(a: Alloc, p: Ptr, b: Ptr)
  {
    p in a.tensors && a.tensors[p] == Owned(b)
  }

  /** Every live buffer belongs to the callers or to exactly one live tensor. */
  ghost predicate BuffersOwned(a: Alloc, l: Ledger)
  {
    && l.caller <= a.buffers
    && (forall p, b :: OwnsBuffer(a, p, b) ==> b in a.buffers && b !in l.caller)
    && (forall p, q, b :: OwnsBuffer(a, p, b) && OwnsBuffer(a, q, b) ==> p == q)
    && (forall b :: b in a.buffers && b !in l.caller ==> exists p :: OwnsBuffer(a, p, b))
  }

  /** User data is released once for each dropped handle that owns some, and not before. */
  ghost predicate ReleasedOnDrop(a: Alloc, l: Ledger)
  {
    && (forall p :: p in a.impls ==> p in l.adopted && l.adopted[p] == a.impls[p])
    && (forall p :: a.released[p] == if p in l.adopted && p !in a.impls && l.adopted[p].Releases() then 1 else 0)
  }

  ghost predicate Sane(a: Alloc, l: Ledger)
  {
    && !a.corrupt && AddressesBelowNext(a, l) && BuffersOwned(a, l) && ReleasedOnDrop(a, l)
  }

  lemma SaneIsOrdered(a: Alloc, l: Ledger)
    requires Sane(a, l)
    ensures Ordered(a)
  {
  }

  lemma FreeTensorIsSane(a: Alloc, l: Ledger, p: Ptr)
    requires Sane(a, l) && (p == NULL || p in a.tensors)
    ensures Sane(FreeTensor(a, p), l)
    ensures FreeTensor(a, p).tensors == a.tensors - {p}
    ensures FreeTensor(a, p).impls == a.impls && FreeTensor(a, p).next == a.next
  {
    var r := FreeTensor(a, p);
    if p != NULL {
      assert forall q, b :: OwnsBuffer(r, q, b) <==> OwnsBuffer(a, q, b) && q != p;
      if a.tensors[p].Owned? {
        var b := a.tensors[p].buffer;
        assert OwnsBuffer(a, p, b);
        forall c | c in r.buffers && c !in l.caller
          ensures exists q :: OwnsBuffer(r, q, c)
        {
          var q :| OwnsBuffer(a, q, c);
          assert OwnsBuffer(r, q, c);
        }
      } else {
        forall c | c in r.buffers && c !in l.caller
          ensures exists q :: OwnsBuffer(r, q, c)
        {
          var q :| OwnsBuffer(a, q, c);
          assert OwnsBuffer(r, q, c);
        }
      }
    }
  }

  lemma FreeThreeIsSane(a: Alloc, l: Ledger, p: Ptr, q: Ptr, r: Ptr)
    requires Sane(a, l) && {p, q, r} - {NULL} <= a.tensors.Keys
    requires (p != NULL ==> p != q && p != r) && (q != NULL ==> q != r)
    ensures var after := FreeTensor(FreeTensor(FreeTensor(a, p), q), r);
            Sane(after, l) && after.tensors == a.tensors - {p, q, r} && after.impls == a.impls && after.next == a.next
  {
    FreeTensorIsSane(a, l, p);
    var b := FreeTensor(a, p);
    FreeTensorIsSane(b, l, q);
    FreeTensorIsSane(FreeTensor(b, q), l, r);
    assert a.tensors - {p} - {q} - {r} == a.tensors - {p, q, r};
  }

  lemma FreeImplIsSane(a: Alloc, l: Ledger, p: Ptr)
    requires Sane(a, l) && (p == NULL || p in a.impls)
    ensures Sane(FreeImpl(a, p), l)
    ensures FreeImpl(a, p).tensors == a.tensors && FreeImpl(a, p).next == a.next
    ensures FreeImpl(a, p).impls == a.impls - {p}
  {
    var r := FreeImpl(a, p);
    assert forall q, b :: OwnsBuffer(r, q, b) <==> OwnsBuffer(a, q, b);
  }

  lemma NewBorrowedIsSane(a: Alloc, l: Ledger, buffer: Ptr)
    requires Sane(a, l)
    ensures Sane(NewBorrowed(a, buffer), l) && a.next !in a.tensors
  {
    var r := NewBorrowed(a, buffer);
    assert forall q, b :: OwnsBuffer(r, q, b) <==> OwnsBuffer(a, q, b);
  }

  lemma NewOwnedIsSane(a: Alloc, l: Ledger)
    requires Sane(a, l)
    ensures Sane(NewOwned(a), l) && a.next + 1 !in a.tensors
  {
    var r := NewOwned(a);
    assert forall q, b :: OwnsBuffer(r, q, b) <==> OwnsBuffer(a, q, b) || (q == a.next + 1 && b == a.next);
    forall c | c in r.buffers && c !in l.caller
      ensures exists q :: OwnsBuffer(r, q, c)
    {
      if c == a.next {
        assert OwnsBuffer(r, a.next + 1, c);
      } else {
        var q :| OwnsBuffer(a, q, c);
        assert OwnsBuffer(r, q, c);
      }
    }
  }

  lemma NewImplIsSane(a: Alloc, l: Ledger, userData: Ptr, hasFree: bool)
    requires Sane(a, l)
    ensures Sane(NewImpl(a, userData, hasFree), l.(adopted := l.adopted[a.next := Impl(userData, hasFree)]))
    ensures a.next !in a.impls
  {
    var r := NewImpl(a, userData, hasFree);
    assert forall q, b :: OwnsBuffer(r, q, b) <==> OwnsBuffer(a, q, b);
  }
}
