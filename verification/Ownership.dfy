/**
 The move-only C++ wrappers as owners of what the Rust core allocates, over every
 run of creating, moving, calculating and destroying.
 */
module Ownership {
  import opened Allocation

  // ---------- Wrappers ----------

  datatype Wrapper =
    | Input(nAtoms: nat, positions: Ptr, numbers: Ptr, box: Ptr)
    | Result(forces: Ptr, energy: real, variance: real)
    | Handle(impl: Ptr)

  function TensorPtrs(w: Wrapper): seq<Ptr>
  {
    match w
    case Input(_, p, n, b) => [p, n, b]
    case Result(f, _, _) => [f]
    case Handle(_) => []
  }

  function ImplPtrs(w: Wrapper): seq<Ptr>
  {
    if w.Handle? then [w.impl] else []
  }

  /** The tensors or the potential handles that a wrapper points to. */
  function Ptrs(tensors: bool, w: Wrapper): seq<Ptr>
  {
    if tensors then TensorPtrs(w) else ImplPtrs(w)
  }

  /** What a wrapper is after being moved from. */
  function Emptied(w: Wrapper): Wrapper
  {
    match w
    case Input(n, _, _, _) => Input(n, NULL, NULL, NULL)
    case Result(_, e, v) => Result(NULL, e, v)
    case Handle(_) => Handle(NULL)
  }

  /** What the destructor of a wrapper frees. */
  function Release(a: Alloc, w: Wrapper): Alloc
  {
    match w
    case Input(_, p, n, b) => FreeTensor(FreeTensor(FreeTensor(a, p), n), b)
    case Result(f, _, _) => FreeTensor(a, f)
    case Handle(h) => FreeImpl(a, h)
  }

  predicate SameKind(v: Wrapper, w: Wrapper)
  {
    v.Input? == w.Input? && v.Result? == w.Result?
  }

  // ---------- Operations ----------

  /** What the callback does: it may set the forces and it reports success or an error. */
  datatype Reply = Reply(setsForces: bool, energy: real, variance: real, success: bool)

  datatype Op =
    | MakeInput(id: nat, nAtoms: nat, pos: Ptr, atmnrs: Ptr, cell: Ptr)
    | MakeResult(id: nat)
    | FromCallback(id: nat, userData: Ptr, hasFree: bool)
    | MoveConstruct(id: nat, src: nat)
    | MoveAssign(dst: nat, src: nat)
    | Calculate(id: nat, handle: nat, input: nat, reply: Reply)
    | Destroy(id: nat)

  datatype World = World(alloc: Alloc, wrappers: map<nat, Wrapper>, ledger: Ledger)

  /** Names of new wrappers are fresh, other operands exist and have the right kind. */
  predicate Allowed(w: World, op: Op)
  {
    match op
    case MakeInput(id, _, _, _, _) => id !in w.wrappers
    case MakeResult(id) => id !in w.wrappers
    case FromCallback(id, _, _) => id !in w.wrappers
    case MoveConstruct(id, src) => id !in w.wrappers && src in w.wrappers
    case MoveAssign(dst, src) => dst in w.wrappers && src in w.wrappers && SameKind(w.wrappers[dst], w.wrappers[src])
    case Calculate(id, h, i, _) =>
      id !in w.wrappers && h in w.wrappers && w.wrappers[h].Handle? && i in w.wrappers && w.wrappers[i].Input?
    case Destroy(id) => id in w.wrappers
  }

  function Borrow3(a: Alloc, pos: Ptr, atmnrs: Ptr, cell: Ptr): Alloc
  {
    NewBorrowed(NewBorrowed(NewBorrowed(a, pos), atmnrs), cell)
  }

  /** The contents of src move to dst, which held nothing. */
  function Moved(wrappers: map<nat, Wrapper>, dst: nat, src: nat): map<nat, Wrapper>
    requires src in wrappers
  {
    wrappers[dst := wrappers[src]][src := Emptied(wrappers[src])]
  }

  /** The result that the callback fills. */
  function Filled(a: Alloc, r: Reply): Wrapper
  {
    Result(if r.setsForces then a.next + 1 else NULL, r.energy, r.variance)
  }

  function Step(w: World, op: Op): World
    requires Allowed(w, op)
  {
    match op
    case MakeInput(id, n, pos, atmnrs, cell) =>
      var a := w.alloc.next;
      w.(alloc := Borrow3(w.alloc, pos, atmnrs, cell), wrappers := w.wrappers[id := Input(n, a, a + 1, a + 2)])
    case MakeResult(id) =>
      w.(wrappers := w.wrappers[id := Result(NULL, 0.0, 0.0)])
    case FromCallback(id, userData, hasFree) =>
      var a := w.alloc.next;
      World(NewImpl(w.alloc, userData, hasFree), w.wrappers[id := Handle(a)],
            w.ledger.(adopted := w.ledger.adopted[a := Impl(userData, hasFree)]))
    case MoveConstruct(id, src) =>
      w.(wrappers := Moved(w.wrappers, id, src))
    case MoveAssign(dst, src) =>
      if dst == src then w
      else w.(alloc := Release(w.alloc, w.wrappers[dst]), wrappers := Moved(w.wrappers, dst, src))
    case Calculate(id, h, _, r) =>
      if w.wrappers[h].impl == NULL then w
      else
        var after := if r.setsForces then NewOwned(w.alloc) else w.alloc;
        if r.success then w.(alloc := after, wrappers := w.wrappers[id := Filled(w.alloc, r)])
        else w.(alloc := Release(after, Filled(w.alloc, r)))
    case Destroy(id) =>
      w.(alloc := Release(w.alloc, w.wrappers[id]), wrappers := w.wrappers - {id})
  }

  // ---------- One owner for everything that is live ----------

  /** Pointer number k of wrapper id is p; tensors says which of the two kinds of pointers. */
  predicate Holds(tensors: bool, wrappers: map<nat, Wrapper>, id: nat, k: nat, p: Ptr)
  {
    && id in wrappers && p != NULL
    && k < |Ptrs(tensors, wrappers[id])| && Ptrs(tensors, wrappers[id])[k] == p
  }

  function PtrSet(tensors: bool, w: Wrapper): set<Ptr>
  {
    set p | p in Ptrs(tensors, w) && p != NULL
  }

  /** The live addresses are exactly those held by wrappers, each in one place. */
  ghost predicate OneOwnerEach(tensors: bool, wrappers: map<nat, Wrapper>, live: set<Ptr>)
  {
    && (forall id, k, p :: Holds(tensors, wrappers, id, k, p) ==> p in live)
    && (forall id, k, jd, l, p :: Holds(tensors, wrappers, id, k, p) && Holds(tensors, wrappers, jd, l, p) ==> id == jd && k == l)
    && (forall p :: p in live ==> exists id, k :: Holds(tensors, wrappers, id, k, p))
  }

  ghost predicate Inv(w: World)
  {
    && Sane(w.alloc, w.ledger)
    && OneOwnerEach(true, w.wrappers, w.alloc.tensors.Keys)
    && OneOwnerEach(false, w.wrappers, w.alloc.impls.Keys)
  }

  /** Emptying a wrapper gives up what it held. */
  lemma EmptyingGivesUp(tensors: bool, wrappers: map<nat, Wrapper>, live: set<Ptr>, id: nat)
    requires OneOwnerEach(tensors, wrappers, live) && id in wrappers
    ensures OneOwnerEach(tensors, wrappers[id := Emptied(wrappers[id])], live - PtrSet(tensors, wrappers[id]))
  {
    var after := wrappers[id := Emptied(wrappers[id])];
    forall jd, k, p
      ensures Holds(tensors, after, jd, k, p) <==> Holds(tensors, wrappers, jd, k, p) && jd != id
    {
    }
    HeldBy(tensors, wrappers, id);
    forall p | p in live - PtrSet(tensors, wrappers[id])
      ensures exists jd, k :: Holds(tensors, after, jd, k, p)
    {
      var jd, k :| Holds(tensors, wrappers, jd, k, p);
      assert Holds(tensors, after, jd, k, p);
    }
  }

  lemma HeldBy(tensors: bool, wrappers: map<nat, Wrapper>, id: nat)
    requires id in wrappers
    ensures forall p :: p in PtrSet(tensors, wrappers[id]) <==> exists k :: Holds(tensors, wrappers, id, k, p)
  {
    var ptrs := Ptrs(tensors, wrappers[id]);
    forall p
      ensures p in PtrSet(tensors, wrappers[id]) <==> exists k :: Holds(tensors, wrappers, id, k, p)
    {
      if p in PtrSet(tensors, wrappers[id]) {
        var k :| 0 <= k < |ptrs| && ptrs[k] == p;
        assert Holds(tensors, wrappers, id, k, p);
      }
    }
  }

  predicate HoldsNothing(w: Wrapper)
  {
    w == Emptied(w)
  }

  /** Removing a wrapper that holds nothing changes no owner. */
  lemma RemovingEmpty(tensors: bool, wrappers: map<nat, Wrapper>, live: set<Ptr>, id: nat)
    requires OneOwnerEach(tensors, wrappers, live) && id in wrappers && HoldsNothing(wrappers[id])
    ensures OneOwnerEach(tensors, wrappers - {id}, live)
  {
    SameHolders(tensors, wrappers, wrappers - {id}, live);
  }

  lemma AddingEmpty(tensors: bool, wrappers: map<nat, Wrapper>, live: set<Ptr>, id: nat, w: Wrapper)
    requires OneOwnerEach(tensors, wrappers, live) && id !in wrappers && HoldsNothing(w)
    ensures OneOwnerEach(tensors, wrappers[id := w], live)
  {
    SameHolders(tensors, wrappers, wrappers[id := w], live);
  }

  lemma SameHolders(tensors: bool, before: map<nat, Wrapper>, after: map<nat, Wrapper>, live: set<Ptr>)
    requires OneOwnerEach(tensors, before, live)
    requires forall id, k, p :: Holds(tensors, after, id, k, p) <==> Holds(tensors, before, id, k, p)
    ensures OneOwnerEach(tensors, after, live)
  {
    forall p | p in live
      ensures exists id, k :: Holds(tensors, after, id, k, p)
    {
      var id, k :| Holds(tensors, before, id, k, p);
      assert Holds(tensors, after, id, k, p);
    }
  }

  /** Moving into a wrapper that holds nothing hands over what the source held. */
  lemma MovingHandsOver(tensors: bool, wrappers: map<nat, Wrapper>, live: set<Ptr>, dst: nat, src: nat)
    requires OneOwnerEach(tensors, wrappers, live) && src in wrappers && dst != src
    requires dst in wrappers ==> HoldsNothing(wrappers[dst])
    ensures OneOwnerEach(tensors, Moved(wrappers, dst, src), live)
  {
    var after := Moved(wrappers, dst, src);
    forall id, k, p
      ensures Holds(tensors, after, id, k, p) <==>
              (Holds(tensors, wrappers, id, k, p) && id != src) || (id == dst && Holds(tensors, wrappers, src, k, p))
    {
    }
    forall p | p in live
      ensures exists id, k :: Holds(tensors, after, id, k, p)
    {
      var id, k :| Holds(tensors, wrappers, id, k, p);
      assert Holds(tensors, after, if id == src then dst else id, k, p);
    }
  }

  /** A new wrapper that holds new addresses, each once. */
  lemma AddingFresh(tensors: bool, wrappers: map<nat, Wrapper>, live: set<Ptr>, id: nat, w: Wrapper)
    requires OneOwnerEach(tensors, wrappers, live) && id !in wrappers && PtrSet(tensors, w) !! live
    requires forall k, l :: 0 <= k < l < |Ptrs(tensors, w)| ==> Ptrs(tensors, w)[k] != Ptrs(tensors, w)[l]
    ensures OneOwnerEach(tensors, wrappers[id := w], live + PtrSet(tensors, w))
  {
    var after := wrappers[id := w];
    HeldBy(tensors, after, id);
    forall jd, k, p
      ensures Holds(tensors, after, jd, k, p) <==>
              Holds(tensors, wrappers, jd, k, p) || (jd == id && Holds(tensors, after, id, k, p))
    {
    }
    forall p | p in live
      ensures exists jd, k :: Holds(tensors, after, jd, k, p)
    {
      var jd, k :| Holds(tensors, wrappers, jd, k, p);
      assert Holds(tensors, after, jd, k, p);
    }
  }

  // ---------- Every step keeps the owners ----------

  /** The pointers of w are live, and the non-null ones differ. */
  ghost predicate Releasable(a: Alloc, w: Wrapper)
  {
    && (forall p :: p in PtrSet(true, w) ==> p in a.tensors) && (forall p :: p in PtrSet(false, w) ==> p in a.impls)
    && (w.Input? ==> (w.positions != NULL ==> w.positions != w.numbers && w.positions != w.box)
                     && (w.numbers != NULL ==> w.numbers != w.box))
  }

  lemma HeldIsReleasable(w: World, id: nat)
    requires Inv(w) && id in w.wrappers
    ensures Releasable(w.alloc, w.wrappers[id])
  {
    HeldBy(true, w.wrappers, id);
    HeldBy(false, w.wrappers, id);
    var v := w.wrappers[id];
    if v.Input? {
      assert TensorPtrs(v)[0] == v.positions && TensorPtrs(v)[1] == v.numbers && TensorPtrs(v)[2] == v.box;
      assert v.positions != NULL ==> Holds(true, w.wrappers, id, 0, v.positions);
      assert v.numbers != NULL ==> Holds(true, w.wrappers, id, 1, v.numbers);
      assert v.box != NULL ==> Holds(true, w.wrappers, id, 2, v.box);
    }
  }

  /** Releasing a wrapper frees exactly what it holds. */
  lemma ReleaseIsSane(a: Alloc, l: Ledger, w: Wrapper)
    requires Sane(a, l) && Releasable(a, w)
    ensures Sane(Release(a, w), l) && Release(a, w).next == a.next
    ensures Release(a, w).tensors == a.tensors - PtrSet(true, w) && Release(a, w).impls == a.impls - PtrSet(false, w)
  {
    match w
    case Input(_, _, _, _) => ReleaseOfInput(a, l, w);
    case Result(f, _, _) =>
      assert PtrSet(true, w) == {f} - {NULL} && PtrSet(false, w) == {};
      FreeTensorIsSane(a, l, f);
    case Handle(h) =>
      assert PtrSet(false, w) == {h} - {NULL} && PtrSet(true, w) == {};
      FreeImplIsSane(a, l, h);
  }

  lemma ReleaseOfInput(a: Alloc, l: Ledger, w: Wrapper)
    requires Sane(a, l) && Releasable(a, w) && w.Input?
    ensures Sane(Release(a, w), l) && Release(a, w).next == a.next
    ensures Release(a, w).tensors == a.tensors - PtrSet(true, w) && Release(a, w).impls == a.impls - PtrSet(false, w)
  {
    var p, n, b := w.positions, w.numbers, w.box;
    assert PtrSet(true, w) == {p, n, b} - {NULL} && PtrSet(false, w) == {};
    FreeThreeIsSane(a, l, p, n, b);
    assert a.tensors - {p, n, b} == a.tensors - ({p, n, b} - {NULL});
  }

  /** Releasing what a wrapper holds and emptying it. */
  lemma ReleasedAndEmptied(w: World, id: nat) returns (r: World)
    requires Inv(w) && id in w.wrappers
    ensures r == w.(alloc := Release(w.alloc, w.wrappers[id]), wrappers := w.wrappers[id := Emptied(w.wrappers[id])])
    ensures Inv(r)
  {
    var v := w.wrappers[id];
    r := w.(alloc := Release(w.alloc, v), wrappers := w.wrappers[id := Emptied(v)]);
    HeldIsReleasable(w, id);
    ReleaseIsSane(w.alloc, w.ledger, v);
    EmptyingGivesUp(true, w.wrappers, w.alloc.tensors.Keys, id);
    EmptyingGivesUp(false, w.wrappers, w.alloc.impls.Keys, id);
  }

  lemma DestroyKeepsInv(w: World, id: nat)
    requires Inv(w) && id in w.wrappers
    ensures Inv(Step(w, Destroy(id)))
  {
    var r := ReleasedAndEmptied(w, id);
    RemovingEmpty(true, r.wrappers, r.alloc.tensors.Keys, id);
    RemovingEmpty(false, r.wrappers, r.alloc.impls.Keys, id);
    assert r.wrappers - {id} == w.wrappers - {id};
  }

  lemma MoveAssignKeepsInv(w: World, dst: nat, src: nat)
    requires Inv(w) && Allowed(w, MoveAssign(dst, src))
    ensures Inv(Step(w, MoveAssign(dst, src)))
  {
    if dst != src {
      var r := ReleasedAndEmptied(w, dst);
      MovingHandsOver(true, r.wrappers, r.alloc.tensors.Keys, dst, src);
      MovingHandsOver(false, r.wrappers, r.alloc.impls.Keys, dst, src);
      assert Moved(r.wrappers, dst, src) == Moved(w.wrappers, dst, src);
    }
  }

  lemma MoveConstructKeepsInv(w: World, id: nat, src: nat)
    requires Inv(w) && Allowed(w, MoveConstruct(id, src))
    ensures Inv(Step(w, MoveConstruct(id, src)))
  {
    MovingHandsOver(true, w.wrappers, w.alloc.tensors.Keys, id, src);
    MovingHandsOver(false, w.wrappers, w.alloc.impls.Keys, id, src);
  }

  lemma MakeInputKeepsInv(w: World, id: nat, nAtoms: nat, pos: Ptr, atmnrs: Ptr, cell: Ptr)
    requires Inv(w) && Allowed(w, MakeInput(id, nAtoms, pos, atmnrs, cell))
    ensures Inv(Step(w, MakeInput(id, nAtoms, pos, atmnrs, cell)))
  {
    var a, l := w.alloc, w.ledger;
    NewBorrowedIsSane(a, l, pos);
    var a1 := NewBorrowed(a, pos);
    NewBorrowedIsSane(a1, l, atmnrs);
    var a2 := NewBorrowed(a1, atmnrs);
    NewBorrowedIsSane(a2, l, cell);
    var v := Input(nAtoms, a.next, a.next + 1, a.next + 2);
    assert PtrSet(true, v) == {a.next, a.next + 1, a.next + 2} && PtrSet(false, v) == {};
    AddingFresh(true, w.wrappers, a.tensors.Keys, id, v);
    AddingFresh(false, w.wrappers, a.impls.Keys, id, v);
    assert NewBorrowed(a2, cell).tensors.Keys == a.tensors.Keys + PtrSet(true, v);
  }

  lemma FromCallbackKeepsInv(w: World, id: nat, userData: Ptr, hasFree: bool)
    requires Inv(w) && Allowed(w, FromCallback(id, userData, hasFree))
    ensures Inv(Step(w, FromCallback(id, userData, hasFree)))
  {
    var a, v := w.alloc, Handle(w.alloc.next);
    NewImplIsSane(a, w.ledger, userData, hasFree);
    assert PtrSet(true, v) == {} && PtrSet(false, v) == {a.next};
    AddingFresh(true, w.wrappers, a.tensors.Keys, id, v);
    AddingFresh(false, w.wrappers, a.impls.Keys, id, v);
    assert NewImpl(a, userData, hasFree).impls.Keys == a.impls.Keys + {a.next};
  }

  lemma KeepForcesKeepsInv(w: World, id: nat, r: Reply)
    requires Inv(w) && id !in w.wrappers
    ensures Inv(w.(alloc := if r.setsForces then NewOwned(w.alloc) else w.alloc, wrappers := w.wrappers[id := Filled(w.alloc, r)]))
  {
    var a, v := w.alloc, Filled(w.alloc, r);
    NewOwnedIsSane(a, w.ledger);
    assert PtrSet(true, v) == (if r.setsForces then {a.next + 1} else {}) && PtrSet(false, v) == {};
    AddingFresh(true, w.wrappers, a.tensors.Keys, id, v);
    AddingFresh(false, w.wrappers, a.impls.Keys, id, v);
    assert NewOwned(a).tensors.Keys == a.tensors.Keys + {a.next + 1};
  }

  /** Forces set by a callback that then fails are freed again: only fresh addresses are used up. */
  lemma ForcesAreFreedAgain(a: Alloc, l: Ledger, r: Reply)
    requires Sane(a, l)
    ensures var after := Release(if r.setsForces then NewOwned(a) else a, Filled(a, r));
            Sane(after, l) && after == a.(next := after.next)
  {
    NewOwnedIsSane(a, l);
    if r.setsForces {
      FreeTensorIsSane(NewOwned(a), l, a.next + 1);
      assert NewOwned(a).tensors - {a.next + 1} == a.tensors;
      assert a.buffers + {a.next} - {a.next} == a.buffers;
    }
  }

  /** Whatever the callback does, the new result owns its forces, or the exception path has freed them. */
  lemma CalculateKeepsInv(w: World, id: nat, handle: nat, input: nat, r: Reply)
    requires Inv(w) && Allowed(w, Calculate(id, handle, input, r))
    ensures var after := Step(w, Calculate(id, handle, input, r));
            && Inv(after)
            && (!r.success ==> after == w.(alloc := w.alloc.(next := after.alloc.next)))
  {
    KeepForcesKeepsInv(w, id, r);
    ForcesAreFreedAgain(w.alloc, w.ledger, r);
  }

  lemma StepKeepsInv(w: World, op: Op)
    requires Inv(w) && Allowed(w, op)
    ensures Inv(Step(w, op)) && Step(w, op).ledger.caller == w.ledger.caller
  {
    match op
    case MakeInput(id, n, pos, atmnrs, cell) => MakeInputKeepsInv(w, id, n, pos, atmnrs, cell);
    case MakeResult(id) =>
      AddingEmpty(true, w.wrappers, w.alloc.tensors.Keys, id, Result(NULL, 0.0, 0.0));
      AddingEmpty(false, w.wrappers, w.alloc.impls.Keys, id, Result(NULL, 0.0, 0.0));
    case FromCallback(id, userData, hasFree) => FromCallbackKeepsInv(w, id, userData, hasFree);
    case MoveConstruct(id, src) => MoveConstructKeepsInv(w, id, src);
    case MoveAssign(dst, src) => MoveAssignKeepsInv(w, dst, src);
    case Calculate(id, h, i, r) => CalculateKeepsInv(w, id, h, i, r);
    case Destroy(id) => DestroyKeepsInv(w, id);
  }

  // ---------- Whole runs ----------

  /** Nothing but the callers' own buffers, all below next. */
  function Start(caller: set<Ptr>, next: Ptr): World
  {
    World(Alloc(map[], map[], caller, multiset{}, next, false), map[], Ledger(caller, map[]))
  }

  predicate ValidStart(caller: set<Ptr>, next: Ptr)
  {
    0 < next && forall b :: b in caller ==> 0 < b < next
  }

  predicate IsRun(w: World, ops: seq<Op>)
  {
    ops != [] ==> IsRun(w, ops[..|ops| - 1]) && Allowed(After(w, ops[..|ops| - 1]), ops[|ops| - 1])
  }

  function After(w: World, ops: seq<Op>): World
  {
    if ops == [] then w else
      var before, op := After(w, ops[..|ops| - 1]), ops[|ops| - 1];
      if Allowed(before, op) then Step(before, op) else before
  }

  /** After every run nothing was freed that was not live, and everything live has exactly one owner. */
  lemma {:induction false} EveryRunIsSafe(caller: set<Ptr>, next: Ptr, ops: seq<Op>)
    requires ValidStart(caller, next) && IsRun(Start(caller, next), ops)
    ensures Inv(After(Start(caller, next), ops)) && After(Start(caller, next), ops).ledger.caller == caller
  {
    if ops != [] {
      EveryRunIsSafe(caller, next, ops[..|ops| - 1]);
      StepKeepsInv(After(Start(caller, next), ops[..|ops| - 1]), ops[|ops| - 1]);
    }
  }

  /** What a run leaves once every wrapper is gone: only the callers' buffers, and all owned user data released, once. */
  lemma NothingLeftBehind(caller: set<Ptr>, next: Ptr, ops: seq<Op>)
    requires ValidStart(caller, next) && IsRun(Start(caller, next), ops)
    requires After(Start(caller, next), ops).wrappers == map[]
    ensures var w := After(Start(caller, next), ops);
            && !w.alloc.corrupt && w.alloc.tensors == map[] && w.alloc.impls == map[] && w.alloc.buffers == caller
            && forall p :: w.alloc.released[p] ==
                  if p in w.ledger.adopted && w.ledger.adopted[p].hasFree && w.ledger.adopted[p].userData != NULL then 1 else 0
  {
    EveryRunIsSafe(caller, next, ops);
    var w := After(Start(caller, next), ops);
    NoWrappersNothingLive(true, w.alloc.tensors.Keys);
    NoWrappersNothingLive(false, w.alloc.impls.Keys);
    forall b | b in w.alloc.buffers
      ensures b in caller
    {
      assert forall p :: !OwnsBuffer(w.alloc, p, b);
    }
  }

  lemma NoWrappersNothingLive(tensors: bool, live: set<Ptr>)
    requires OneOwnerEach(tensors, map[], live)
    ensures live == {}
  {
    assert forall id, k, p :: !Holds(tensors, map[], id, k, p);
    assert forall p :: p !in live;
  }
}
