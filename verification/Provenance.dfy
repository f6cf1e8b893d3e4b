/**
 What every wrapper holds after a run, traced back through all moves to the
 operation that made it.
 */
module Provenance {
  import opened Allocation
  import opened Ownership

  /** The operation that made the contents of a wrapper, and whether its pointers have been moved out since. */
  datatype Source = Source(op: Op, emptied: bool)

  /** How one operation changes where contents come from; nothing here looks at memory. */
  function Traced(sources: map<nat, Source>, op: Op): map<nat, Source>
  {
    match op
    case MakeInput(id, _, _, _, _) => sources[id := Source(op, false)]
    case MakeResult(id) => sources[id := Source(op, false)]
    case FromCallback(id, _, _) => sources[id := Source(op, false)]
    case MoveConstruct(id, src) => if src in sources then HandedOver(sources, id, src) else sources
    case MoveAssign(dst, src) => if src in sources && dst != src then HandedOver(sources, dst, src) else sources
    case Calculate(id, h, _, r) => if h in sources && !sources[h].emptied && r.success then sources[id := Source(op, false)] else sources
    case Destroy(id) => sources - {id}
  }

  function HandedOver(sources: map<nat, Source>, dst: nat, src: nat): map<nat, Source>
    requires src in sources
  {
    sources[dst := sources[src]][src := sources[src].(emptied := true)]
  }

  function Sources(ops: seq<Op>): map<nat, Source>
  {
    if ops == [] then map[] else Traced(Sources(ops[..|ops| - 1]), ops[|ops| - 1])
  }

  /**
   The wrapper holds what its source made: an input borrows the three buffers it was given, a result has the energy and the
   variance that the callback reported and owns forces exactly if the callback set them, a handle refers to the user data it
   adopted; after being moved from the pointers are null and the numbers are still there.
   */
  ghost predicate HoldsWhatWasMade(a: Alloc, v: Wrapper, s: Source)
  {
    match s.op
    case MakeInput(_, n, pos, atmnrs, cell) =>
      && v.Input? && v.nAtoms == n
      && (if s.emptied then v.positions == v.numbers == v.box == NULL
          else Lends(a, v.positions, pos) && Lends(a, v.numbers, atmnrs) && Lends(a, v.box, cell))
    case MakeResult(_) => v == Result(NULL, 0.0, 0.0)
    case FromCallback(_, userData, hasFree) =>
      && v.Handle?
      && (if s.emptied then v.impl == NULL else v.impl != NULL && v.impl in a.impls && a.impls[v.impl] == Impl(userData, hasFree))
    case Calculate(_, _, _, r) =>
      && v.Result? && v.energy == r.energy && v.variance == r.variance
      && (if r.setsForces && !s.emptied then Owns(a, v.forces) else v.forces == NULL)
    case _ => false
  }

  ghost predicate AllTraced(w: World, sources: map<nat, Source>)
  {
    && w.wrappers.Keys == sources.Keys
    && forall id :: id in sources ==> HoldsWhatWasMade(w.alloc, w.wrappers[id], sources[id])
  }

  /** What a wrapper points to is still there, unchanged. */
  ghost predicate StillThere(a: Alloc, b: Alloc, v: Wrapper)
  {
    && (forall p :: p in PtrSet(true, v) && p in a.tensors ==> p in b.tensors && b.tensors[p] == a.tensors[p])
    && (forall p :: p in PtrSet(false, v) && p in a.impls ==> p in b.impls && b.impls[p] == a.impls[p])
  }

  lemma PointersOf(v: Wrapper)
    ensures v.Input? ==> PtrSet(true, v) == {v.positions, v.numbers, v.box} - {NULL}
    ensures v.Result? ==> PtrSet(true, v) == {v.forces} - {NULL}
    ensures v.Handle? ==> PtrSet(false, v) == {v.impl} - {NULL}
  {
  }

  lemma Persists(a: Alloc, b: Alloc, l: Ledger, v: Wrapper, s: Source)
    requires HoldsWhatWasMade(a, v, s) && StillThere(a, b, v) && Sane(b, l)
    ensures HoldsWhatWasMade(b, v, s)
  {
    PointersOf(v);
    if v.Result? && v.forces != NULL && v.forces in b.tensors && b.tensors[v.forces].Owned? {
      assert OwnsBuffer(b, v.forces, b.tensors[v.forces].buffer);
    }
  }

  /** Wrappers with different names have no pointer in common. */
  lemma NoSharing(w: World, i: nat, j: nat)
    requires Inv(w) && i in w.wrappers && j in w.wrappers && i != j
    ensures PtrSet(true, w.wrappers[i]) !! PtrSet(true, w.wrappers[j])
    ensures PtrSet(false, w.wrappers[i]) !! PtrSet(false, w.wrappers[j])
  {
    HeldBy(true, w.wrappers, i);
    HeldBy(true, w.wrappers, j);
    HeldBy(false, w.wrappers, i);
    HeldBy(false, w.wrappers, j);
  }

  /** Releasing one wrapper leaves what all others hold. */
  lemma OthersStillThere(w: World, id: nat, other: nat)
    requires Inv(w) && id in w.wrappers && other in w.wrappers && other != id
    ensures StillThere(w.alloc, Release(w.alloc, w.wrappers[id]), w.wrappers[other])
  {
    HeldIsReleasable(w, id);
    ReleaseIsSane(w.alloc, w.ledger, w.wrappers[id]);
    NoSharing(w, id, other);
  }

  lemma MovedOutIsEmpty(a: Alloc, v: Wrapper, s: Source)
    requires HoldsWhatWasMade(a, v, s)
    ensures HoldsWhatWasMade(a, Emptied(v), s.(emptied := true))
  {
  }

  /** Contents that were handed over are held by the new name, and the old one is empty. */
  lemma HandingOver(before: map<nat, Wrapper>, sources: map<nat, Source>, a: Alloc, dst: nat, src: nat)
    requires before.Keys == sources.Keys && src in sources && dst != src
    requires forall id :: id in sources && id != dst ==> HoldsWhatWasMade(a, before[id], sources[id])
    ensures var after, traced := Moved(before, dst, src), HandedOver(sources, dst, src);
            after.Keys == traced.Keys && forall id :: id in traced ==> HoldsWhatWasMade(a, after[id], traced[id])
  {
    MovedOutIsEmpty(a, before[src], sources[src]);
  }

  lemma AssignTraced(w: World, sources: map<nat, Source>, dst: nat, src: nat)
    requires Inv(w) && AllTraced(w, sources) && Allowed(w, MoveAssign(dst, src))
    ensures AllTraced(Step(w, MoveAssign(dst, src)), Traced(sources, MoveAssign(dst, src)))
  {
    if dst != src {
      var a := Release(w.alloc, w.wrappers[dst]);
      HeldIsReleasable(w, dst);
      ReleaseIsSane(w.alloc, w.ledger, w.wrappers[dst]);
      forall id | id in sources && id != dst
        ensures HoldsWhatWasMade(a, w.wrappers[id], sources[id])
      {
        OthersStillThere(w, dst, id);
        Persists(w.alloc, a, w.ledger, w.wrappers[id], sources[id]);
      }
      HandingOver(w.wrappers, sources, a, dst, src);
    }
  }

  lemma DestroyTraced(w: World, sources: map<nat, Source>, id: nat)
    requires Inv(w) && AllTraced(w, sources) && id in w.wrappers
    ensures AllTraced(Step(w, Destroy(id)), Traced(sources, Destroy(id)))
  {
    var a := Release(w.alloc, w.wrappers[id]);
    HeldIsReleasable(w, id);
    ReleaseIsSane(w.alloc, w.ledger, w.wrappers[id]);
    forall other | other in sources && other != id
      ensures HoldsWhatWasMade(a, w.wrappers[other], sources[other])
    {
      OthersStillThere(w, id, other);
      Persists(w.alloc, a, w.ledger, w.wrappers[other], sources[other]);
    }
  }

  /** A step that only allocates and makes one wrapper. */
  lemma MakingTraced(w: World, next: World, sources: map<nat, Source>, id: nat, v: Wrapper, s: Source)
    requires Inv(w) && Inv(next) && AllTraced(w, sources) && id !in w.wrappers
    requires next.wrappers == w.wrappers[id := v] && HoldsWhatWasMade(next.alloc, v, s)
    requires forall p :: p in w.alloc.tensors ==> p in next.alloc.tensors && next.alloc.tensors[p] == w.alloc.tensors[p]
    requires forall p :: p in w.alloc.impls ==> p in next.alloc.impls && next.alloc.impls[p] == w.alloc.impls[p]
    ensures AllTraced(next, sources[id := s])
  {
    forall other | other in sources
      ensures HoldsWhatWasMade(next.alloc, w.wrappers[other], sources[other])
    {
      Persists(w.alloc, next.alloc, next.ledger, w.wrappers[other], sources[other]);
    }
  }

  lemma MakeInputTraced(w: World, sources: map<nat, Source>, op: Op)
    requires Inv(w) && AllTraced(w, sources) && Allowed(w, op) && op.MakeInput?
    ensures AllTraced(Step(w, op), Traced(sources, op))
  {
    StepKeepsInv(w, op);
    var a := w.alloc.next;
    var v, b := Input(op.nAtoms, a, a + 1, a + 2), Borrow3(w.alloc, op.pos, op.atmnrs, op.cell);
    FreshBorrows(w.alloc, w.ledger, op.pos, op.atmnrs, op.cell);
    assert HoldsWhatWasMade(b, v, Source(op, false));
    MakingTraced(w, Step(w, op), sources, op.id, v, Source(op, false));
  }

  lemma FreshBorrows(a: Alloc, l: Ledger, pos: Ptr, atmnrs: Ptr, cell: Ptr)
    requires Sane(a, l)
    ensures var b := Borrow3(a, pos, atmnrs, cell);
            && Lends(b, a.next, pos) && Lends(b, a.next + 1, atmnrs) && Lends(b, a.next + 2, cell)
            && b.impls == a.impls && forall p :: p in a.tensors ==> p in b.tensors && b.tensors[p] == a.tensors[p]
  {
  }

  lemma MakeResultTraced(w: World, sources: map<nat, Source>, op: Op)
    requires Inv(w) && AllTraced(w, sources) && Allowed(w, op) && op.MakeResult?
    ensures AllTraced(Step(w, op), Traced(sources, op))
  {
    StepKeepsInv(w, op);
    MakingTraced(w, Step(w, op), sources, op.id, Result(NULL, 0.0, 0.0), Source(op, false));
  }

  lemma FromCallbackTraced(w: World, sources: map<nat, Source>, op: Op)
    requires Inv(w) && AllTraced(w, sources) && Allowed(w, op) && op.FromCallback?
    ensures AllTraced(Step(w, op), Traced(sources, op))
  {
    StepKeepsInv(w, op);
    FreshHandle(w.alloc, w.ledger, op.userData, op.hasFree);
    MakingTraced(w, Step(w, op), sources, op.id, Handle(w.alloc.next), Source(op, false));
  }

  lemma FreshHandle(a: Alloc, l: Ledger, userData: Ptr, hasFree: bool)
    requires Sane(a, l)
    ensures var b := NewImpl(a, userData, hasFree);
            && a.next != NULL && a.next in b.impls && b.impls[a.next] == Impl(userData, hasFree)
            && b.tensors == a.tensors && forall p :: p in a.impls ==> p in b.impls && b.impls[p] == a.impls[p]
  {
  }

  lemma CalculateTraced(w: World, sources: map<nat, Source>, op: Op)
    requires Inv(w) && AllTraced(w, sources) && Allowed(w, op) && op.Calculate?
    ensures AllTraced(Step(w, op), Traced(sources, op))
  {
    assert HoldsWhatWasMade(w.alloc, w.wrappers[op.handle], sources[op.handle]);
    assert w.wrappers[op.handle].impl == NULL <==> sources[op.handle].emptied;
    if w.wrappers[op.handle].impl != NULL {
      if op.reply.success {
        SuccessTraced(w, sources, op);
      } else {
        FailureTraced(w, sources, op);
      }
    }
  }

  lemma SuccessTraced(w: World, sources: map<nat, Source>, op: Op)
    requires Inv(w) && AllTraced(w, sources) && Allowed(w, op) && op.Calculate?
    requires w.wrappers[op.handle].impl != NULL && op.reply.success
    ensures AllTraced(Step(w, op), sources[op.id := Source(op, false)])
  {
    var r := op.reply;
    var b := if r.setsForces then NewOwned(w.alloc) else w.alloc;
    var next := w.(alloc := b, wrappers := w.wrappers[op.id := Filled(w.alloc, r)]);
    KeepForcesKeepsInv(w, op.id, r);
    FreshForces(w.alloc, w.ledger, r);
    MakingTraced(w, next, sources, op.id, Filled(w.alloc, r), Source(op, false));
  }

  lemma FreshForces(a: Alloc, l: Ledger, r: Reply)
    requires Sane(a, l)
    ensures var b, v := if r.setsForces then NewOwned(a) else a, Filled(a, r);
            && v.energy == r.energy && v.variance == r.variance && (if r.setsForces then Owns(b, v.forces) else v.forces == NULL)
            && b.impls == a.impls && forall p :: p in a.tensors ==> p in b.tensors && b.tensors[p] == a.tensors[p]
  {
  }

  lemma FailureTraced(w: World, sources: map<nat, Source>, op: Op)
    requires Inv(w) && AllTraced(w, sources) && Allowed(w, op) && op.Calculate? && !op.reply.success
    ensures AllTraced(Step(w, op), sources)
  {
    CalculateKeepsInv(w, op.id, op.handle, op.input, op.reply);
    var next := Step(w, op);
    forall id | id in sources
      ensures HoldsWhatWasMade(next.alloc, w.wrappers[id], sources[id])
    {
      Persists(w.alloc, next.alloc, w.ledger, w.wrappers[id], sources[id]);
    }
  }

  lemma StepTraced(w: World, sources: map<nat, Source>, op: Op)
    requires Inv(w) && AllTraced(w, sources) && Allowed(w, op)
    ensures AllTraced(Step(w, op), Traced(sources, op))
  {
    match op
    case MoveConstruct(id, src) => HandingOver(w.wrappers, sources, w.alloc, id, src);
    case MoveAssign(dst, src) => AssignTraced(w, sources, dst, src);
    case Destroy(id) => DestroyTraced(w, sources, id);
    case Calculate(_, _, _, _) => CalculateTraced(w, sources, op);
    case MakeInput(_, _, _, _, _) => MakeInputTraced(w, sources, op);
    case MakeResult(_) => MakeResultTraced(w, sources, op);
    case FromCallback(_, _, _) => FromCallbackTraced(w, sources, op);
  }

  /** After every run each wrapper holds what its source made, through any number of moves. */
  lemma {:induction false} EveryWrapperIsTraced(caller: set<Ptr>, next: Ptr, ops: seq<Op>)
    requires ValidStart(caller, next) && IsRun(Start(caller, next), ops)
    ensures AllTraced(After(Start(caller, next), ops), Sources(ops))
  {
    if ops != [] {
      var before := ops[..|ops| - 1];
      EveryWrapperIsTraced(caller, next, before);
      EveryRunIsSafe(caller, next, before);
      StepTraced(After(Start(caller, next), before), Sources(before), ops[|ops| - 1]);
    }
  }
}
