/**
 Runs of the real objects: a session keeps the live wrappers by name and performs
 the operations of Ownership on them.
 */
module WrapperSessions {
  import opened Allocation
  import opened Ownership
  import opened Provenance
  import opened Wrappers

  datatype Slot = InputSlot(input: InputSpec) | ResultSlot(result: CalcResult) | HandleSlot(handle: PotentialHandle)

  function ObjectOf(s: Slot): object
  {
    match s case InputSlot(o) => o case ResultSlot(o) => o case HandleSlot(o) => o
  }

  function ViewOf(s: Slot): Wrapper
    reads ObjectOf(s)
  {
    match s case InputSlot(o) => o.View() case ResultSlot(o) => o.View() case HandleSlot(o) => o.View()
  }

  ghost function ObjectsOf(slots: map<nat, Slot>): set<object>
  {
    set id | id in slots :: ObjectOf(slots[id])
  }

  /** No two names stand for one object. */
  ghost predicate OneObjectEach(slots: map<nat, Slot>)
  {
    forall i, j :: i in slots && j in slots && i != j ==> ObjectOf(slots[i]) != ObjectOf(slots[j])
  }

  /** The objects hold what the wrappers say. */
  ghost predicate Show(slots: map<nat, Slot>, wrappers: map<nat, Wrapper>)
    reads ObjectsOf(slots)
  {
    && slots.Keys == wrappers.Keys
    && forall id :: id in slots ==> ObjectOf(slots[id]) in ObjectsOf(slots) && ViewOf(slots[id]) == wrappers[id]
  }

  lemma Added(slots: map<nat, Slot>, wrappers: map<nat, Wrapper>, id: nat, s: Slot)
    requires OneObjectEach(slots) && Show(slots, wrappers) && id !in slots && ObjectOf(s) !in ObjectsOf(slots)
    ensures OneObjectEach(slots[id := s]) && Show(slots[id := s], wrappers[id := ViewOf(s)])
    ensures ObjectsOf(slots[id := s]) == ObjectsOf(slots) + {ObjectOf(s)}
  {
    var after := slots[id := s];
    forall i | i in slots
      ensures ObjectOf(slots[i]) in ObjectsOf(slots)
    {
    }
    forall o | o in ObjectsOf(slots) + {ObjectOf(s)}
      ensures o in ObjectsOf(after)
    {
      if o in ObjectsOf(slots) {
        var i :| i in slots && ObjectOf(slots[i]) == o;
        assert ObjectOf(after[i]) == o;
      } else {
        assert ObjectOf(after[id]) == o;
      }
    }
  }

  /** After the objects dst and src took new contents. */
  lemma Exchanged(slots: map<nat, Slot>, before: map<nat, Wrapper>, after: map<nat, Wrapper>, dst: nat, src: nat)
    requires slots.Keys == before.Keys == after.Keys && dst in slots && src in slots
    requires forall id :: id in slots && id != dst && id != src ==> ViewOf(slots[id]) == before[id] && after[id] == before[id]
    requires ViewOf(slots[dst]) == after[dst] && ViewOf(slots[src]) == after[src]
    ensures Show(slots, after)
  {
  }

  lemma Removed(slots: map<nat, Slot>, wrappers: map<nat, Wrapper>, id: nat)
    requires OneObjectEach(slots) && id in slots && slots.Keys == wrappers.Keys
    requires forall i :: i in slots && i != id ==> ViewOf(slots[i]) == wrappers[i]
    ensures OneObjectEach(slots - {id}) && Show(slots - {id}, wrappers - {id})
    ensures ObjectsOf(slots - {id}) <= ObjectsOf(slots)
  {
  }

  /** What the core has allocated when the callback returns. */
  function Loaded(a: Alloc, r: Reply): Alloc
  {
    if r.setsForces then NewOwned(a) else a
  }

  lemma MoveConstructStep(w: World, op: Op)
    requires Allowed(w, op) && op.MoveConstruct?
    ensures Step(w, op) == w.(wrappers := w.wrappers[op.src := Emptied(w.wrappers[op.src])][op.id := w.wrappers[op.src]])
  {
    var moved := w.wrappers[op.src := Emptied(w.wrappers[op.src])][op.id := w.wrappers[op.src]];
    assert Moved(w.wrappers, op.id, op.src) == moved;
  }

  class Session {
    const core: Core
    var slots: map<nat, Slot>

    constructor (caller: set<Ptr>, next: Ptr)
      requires ValidStart(caller, next)
      ensures fresh(core) && slots == map[] && Represents(Start(caller, next))
    {
      core := new Core(caller, next);
      slots := map[];
    }

    ghost function Objects(): set<object>
      reads this
    {
      ObjectsOf(slots)
    }

    /** One object for each name, with the contents that w says, and the core has allocated what w says. */
    ghost predicate Represents(w: World)
      reads this, core, Objects()
    {
      core.Valid() && core.alloc == w.alloc && OneObjectEach(slots) && Show(slots, w.wrappers)
    }

    method Add(id: nat, s: Slot, ghost wrappers: map<nat, Wrapper>)
      requires OneObjectEach(slots) && Show(slots, wrappers) && id !in slots && ObjectOf(s) !in Objects()
      modifies this
      ensures OneObjectEach(slots) && Show(slots, wrappers[id := old(ViewOf(s))]) && slots == old(slots)[id := s]
      ensures Objects() == old(Objects()) + {ObjectOf(s)}
    {
      Added(slots, wrappers, id, s);
      slots := slots[id := s];
    }

    method MakeInput(op: Op, ghost w: World)
      requires Represents(w) && Allowed(w, op) && op.MakeInput?
      modifies this, core
      ensures Represents(Step(w, op)) && fresh(Objects() - old(Objects()))
    {
      NewInput(op.id, op.nAtoms, op.pos, op.atmnrs, op.cell, w.wrappers);
    }

    method NewInput(id: nat, nAtoms: nat, pos: Ptr, atmnrs: Ptr, cell: Ptr, ghost wrappers: map<nat, Wrapper>)
      requires core.Valid() && OneObjectEach(slots) && Show(slots, wrappers) && id !in slots
      modifies this, core
      ensures core.Valid() && OneObjectEach(slots) && fresh(Objects() - old(Objects()))
      ensures core.alloc == Borrow3(old(core.alloc), pos, atmnrs, cell)
      ensures var a := old(core.alloc).next; Show(slots, wrappers[id := Input(nAtoms, a, a + 1, a + 2)])
    {
      var o := new InputSpec(core, nAtoms, pos, atmnrs, cell);
      Add(id, InputSlot(o), wrappers);
    }

    method MakeResult(op: Op, ghost w: World)
      requires Represents(w) && Allowed(w, op) && op.MakeResult?
      modifies this, core
      ensures Represents(Step(w, op)) && fresh(Objects() - old(Objects()))
    {
      var o := new CalcResult();
      Add(op.id, ResultSlot(o), w.wrappers);
    }

    method FromCallback(op: Op, ghost w: World)
      requires Represents(w) && Allowed(w, op) && op.FromCallback?
      modifies this, core
      ensures Represents(Step(w, op)) && fresh(Objects() - old(Objects()))
    {
      var o := new PotentialHandle(core, op.userData, op.hasFree);
      Add(op.id, HandleSlot(o), w.wrappers);
    }

    /** The move constructor of the class that s is an object of. */
    method MoveOut(s: Slot) returns (t: Slot)
      modifies ObjectOf(s)
      ensures fresh(ObjectOf(t)) && ViewOf(t) == old(ViewOf(s)) && ViewOf(s) == Emptied(old(ViewOf(s)))
    {
      if s.InputSlot? {
        var o := new InputSpec.Move(s.input);
        t := InputSlot(o);
      } else if s.ResultSlot? {
        var o := new CalcResult.Move(s.result);
        t := ResultSlot(o);
      } else {
        var o := new PotentialHandle.Move(s.handle);
        t := HandleSlot(o);
      }
    }

    method EmptyOut(src: nat, ghost wrappers: map<nat, Wrapper>) returns (t: Slot)
      requires OneObjectEach(slots) && Show(slots, wrappers) && src in slots
      modifies Objects()
      ensures fresh(ObjectOf(t)) && ViewOf(t) == wrappers[src] && unchanged(this) && unchanged(core)
      ensures Show(slots, wrappers[src := Emptied(wrappers[src])])
    {
      assert ObjectOf(slots[src]) in Objects();
      t := MoveOut(slots[src]);
      Exchanged(slots, wrappers, wrappers[src := Emptied(wrappers[src])], src, src);
    }

    method MoveConstruct(op: Op, ghost w: World)
      requires Represents(w) && Allowed(w, op) && op.MoveConstruct?
      modifies this, Objects()
      ensures Represents(Step(w, op)) && fresh(Objects() - old(Objects()))
    {
      ghost var emptied := w.wrappers[op.src := Emptied(w.wrappers[op.src])];
      var t := EmptyOut(op.src, w.wrappers);
      Add(op.id, t, emptied);
      MoveConstructStep(w, op);
    }

    /** The move assignment of the class of both. */
    method AssignObjects(d: Slot, s: Slot)
      requires core.Valid() && SameKind(ViewOf(d), ViewOf(s))
      modifies core, ObjectOf(d), ObjectOf(s)
      ensures core.Valid()
      ensures ObjectOf(d) == ObjectOf(s) ==> core.alloc == old(core.alloc) && ViewOf(d) == old(ViewOf(d))
      ensures ObjectOf(d) != ObjectOf(s) ==>
                && core.alloc == Release(old(core.alloc), old(ViewOf(d)))
                && ViewOf(d) == old(ViewOf(s)) && ViewOf(s) == Emptied(old(ViewOf(s)))
    {
      if d.InputSlot? {
        d.input.MoveAssign(core, s.input);
      } else if d.ResultSlot? {
        d.result.MoveAssign(core, s.result);
      } else {
        d.handle.MoveAssign(core, s.handle);
      }
    }

    method AssignNames(dst: nat, src: nat, ghost wrappers: map<nat, Wrapper>)
      requires core.Valid() && OneObjectEach(slots) && Show(slots, wrappers)
      requires dst in slots && src in slots && SameKind(wrappers[dst], wrappers[src])
      modifies core, Objects()
      ensures core.Valid() && unchanged(this)
      ensures dst == src ==> core.alloc == old(core.alloc) && Show(slots, wrappers)
      ensures dst != src ==> core.alloc == Release(old(core.alloc), wrappers[dst]) && Show(slots, Moved(wrappers, dst, src))
    {
      var d, s := slots[dst], slots[src];
      assert ObjectOf(d) in Objects() && ObjectOf(s) in Objects();
      AssignObjects(d, s);
      Exchanged(slots, wrappers, if dst == src then wrappers else Moved(wrappers, dst, src), dst, src);
    }

    method MoveAssign(op: Op, ghost w: World)
      requires Represents(w) && Allowed(w, op) && op.MoveAssign?
      modifies core, Objects()
      ensures Represents(Step(w, op)) && Objects() == old(Objects())
    {
      AssignNames(op.dst, op.src, w.wrappers);
    }

    /** calculate on the handle of this name, with the result, if there is one, under a new name. */
    method CalculateNamed(id: nat, handle: nat, r: Reply, ghost wrappers: map<nat, Wrapper>)
      requires core.Valid() && OneObjectEach(slots) && Show(slots, wrappers)
      requires id !in slots && handle in slots && wrappers[handle].Handle?
      modifies this, core
      ensures core.Valid() && OneObjectEach(slots) && fresh(Objects() - old(Objects()))
      ensures wrappers[handle].impl == NULL ==> core.alloc == old(core.alloc) && Show(slots, wrappers)
      ensures wrappers[handle].impl != NULL && r.success ==>
                core.alloc == Loaded(old(core.alloc), r) && Show(slots, wrappers[id := Filled(old(core.alloc), r)])
      ensures wrappers[handle].impl != NULL && !r.success ==>
                core.alloc == Release(Loaded(old(core.alloc), r), Filled(old(core.alloc), r)) && Show(slots, wrappers)
    {
      var result := CalculateOn(handle, r, wrappers);
      if result != null {
        Add(id, ResultSlot(result), wrappers);
      }
    }

    /** calculate on the handle of this name. */
    method CalculateOn(handle: nat, r: Reply, ghost wrappers: map<nat, Wrapper>) returns (result: CalcResult?)
      requires core.Valid() && Show(slots, wrappers) && handle in slots && wrappers[handle].Handle?
      modifies core
      ensures core.Valid() && Show(slots, wrappers)
      ensures (result != null) <==> wrappers[handle].impl != NULL && r.success
      ensures result != null ==>
                fresh(result) && result.View() == Filled(old(core.alloc), r) && core.alloc == Loaded(old(core.alloc), r)
      ensures wrappers[handle].impl == NULL ==> core.alloc == old(core.alloc)
      ensures wrappers[handle].impl != NULL && !r.success ==>
                core.alloc == Release(Loaded(old(core.alloc), r), Filled(old(core.alloc), r))
    {
      assert ViewOf(slots[handle]) == wrappers[handle];
      var h := slots[handle].handle;
      result := h.Calculate(core, r);
    }

    method Calculate(op: Op, ghost w: World)
      requires Represents(w) && Allowed(w, op) && op.Calculate?
      modifies this, core
      ensures Represents(Step(w, op)) && fresh(Objects() - old(Objects()))
    {
      CalculateNamed(op.id, op.handle, op.reply, w.wrappers);
    }

    /** The destructor of the class that s is an object of. */
    method DestroyObject(s: Slot)
      requires core.Valid()
      modifies core, ObjectOf(s)
      ensures core.Valid() && core.alloc == Release(old(core.alloc), old(ViewOf(s)))
    {
      if s.InputSlot? {
        s.input.Destroy(core);
      } else if s.ResultSlot? {
        s.result.Destroy(core);
      } else {
        s.handle.Destroy(core);
      }
    }

    method Drop(id: nat, ghost wrappers: map<nat, Wrapper>)
      requires core.Valid() && OneObjectEach(slots) && Show(slots, wrappers) && id in slots
      modifies this, core, Objects()
      ensures core.Valid() && core.alloc == Release(old(core.alloc), wrappers[id])
      ensures OneObjectEach(slots) && Show(slots, wrappers - {id}) && Objects() <= old(Objects())
    {
      assert ObjectOf(slots[id]) in Objects();
      DestroyObject(slots[id]);
      Removed(slots, wrappers, id);
      slots := slots - {id};
    }

    method Destroy(op: Op, ghost w: World)
      requires Represents(w) && Allowed(w, op) && op.Destroy?
      modifies this, core, Objects()
      ensures Represents(Step(w, op)) && Objects() <= old(Objects())
    {
      Drop(op.id, w.wrappers);
      assert core.alloc == Release(old(core.alloc), w.wrappers[op.id]);
    }

    method Perform(op: Op, ghost w: World)
      requires Represents(w) && Allowed(w, op)
      modifies this, core, Objects()
      ensures Represents(Step(w, op)) && fresh(Objects() - old(Objects()))
    {
      match op
      case MakeInput(_, _, _, _, _) => MakeInput(op, w);
      case MakeResult(_) => MakeResult(op, w);
      case FromCallback(_, _, _) => FromCallback(op, w);
      case MoveConstruct(_, _) => MoveConstruct(op, w);
      case MoveAssign(_, _) => MoveAssign(op, w);
      case Calculate(_, _, _, _) => Calculate(op, w);
      case Destroy(_) => Destroy(op, w);
    }

    /** Operation n of a run. */
    method Advance(ghost start: World, ops: seq<Op>, n: nat)
      requires IsRun(start, ops) && n < |ops| && Represents(After(start, ops[..n]))
      modifies this, core, Objects()
      ensures Represents(After(start, ops[..n + 1])) && fresh(Objects() - old(Objects()))
    {
      StepOfRun(start, ops, n);
      Perform(ops[n], After(start, ops[..n]));
    }
  }

  /**
   Every run on the objects follows the abstract run; so nothing was freed that was not live, everything live is held in
   one place, each object holds what the operation it traces back to made, and once all objects are gone nothing is left but
   the callers' buffers.
   */
  method Drive(caller: set<Ptr>, next: Ptr, ops: seq<Op>) returns (session: Session)
    requires ValidStart(caller, next) && IsRun(Start(caller, next), ops)
    ensures session.Represents(After(Start(caller, next), ops))
    ensures Inv(After(Start(caller, next), ops)) && !session.core.alloc.corrupt && caller <= session.core.alloc.buffers
    ensures session.slots.Keys == Sources(ops).Keys
    ensures forall id :: id in session.slots ==>
              HoldsWhatWasMade(session.core.alloc, ViewOf(session.slots[id]), Sources(ops)[id])
    ensures session.slots == map[] ==>
              session.core.alloc.tensors == map[] && session.core.alloc.impls == map[] && session.core.alloc.buffers == caller
  {
    ghost var start := Start(caller, next);
    session := new Session(caller, next);
    for n := 0 to |ops|
      invariant session.Represents(After(start, ops[..n]))
      invariant fresh(session) && fresh(session.core) && fresh(session.Objects())
    {
      session.Advance(start, ops, n);
    }
    assert ops[..|ops|] == ops;
    SessionAfterRun(session, caller, next, ops);
  }

  lemma SessionAfterRun(session: Session, caller: set<Ptr>, next: Ptr, ops: seq<Op>)
    requires ValidStart(caller, next) && IsRun(Start(caller, next), ops)
    requires session.Represents(After(Start(caller, next), ops))
    ensures Inv(After(Start(caller, next), ops)) && !session.core.alloc.corrupt && caller <= session.core.alloc.buffers
    ensures session.slots.Keys == Sources(ops).Keys
    ensures forall id :: id in session.slots ==>
              HoldsWhatWasMade(session.core.alloc, ViewOf(session.slots[id]), Sources(ops)[id])
    ensures session.slots == map[] ==>
              session.core.alloc.tensors == map[] && session.core.alloc.impls == map[] && session.core.alloc.buffers == caller
  {
    AfterRun(caller, next, ops);
    EveryWrapperIsTraced(caller, next, ops);
    assert session.slots == map[] ==> After(Start(caller, next), ops).wrappers.Keys == {};
  }

  lemma AfterRun(caller: set<Ptr>, next: Ptr, ops: seq<Op>)
    requires ValidStart(caller, next) && IsRun(Start(caller, next), ops)
    ensures var w := After(Start(caller, next), ops);
            && Inv(w) && !w.alloc.corrupt && caller <= w.alloc.buffers
            && (w.wrappers.Keys == {} ==> w.alloc.tensors == map[] && w.alloc.impls == map[] && w.alloc.buffers == caller)
  {
    EveryRunIsSafe(caller, next, ops);
    var w := After(Start(caller, next), ops);
    if w.wrappers.Keys == {} {
      assert w.wrappers == map[];
      NothingLeftBehind(caller, next, ops);
    }
  }

  lemma StepOfRun(w: World, ops: seq<Op>, n: nat)
    requires IsRun(w, ops) && n < |ops|
    ensures Allowed(After(w, ops[..n]), ops[n]) && After(w, ops[..n + 1]) == Step(After(w, ops[..n]), ops[n])
  {
    PrefixIsRun(w, ops, n + 1);
    assert ops[..n + 1][..n] == ops[..n];
  }

  lemma {:induction false} PrefixIsRun(w: World, ops: seq<Op>, n: nat)
    requires IsRun(w, ops) && n <= |ops|
    ensures IsRun(w, ops[..n])
    decreases |ops|
  {
    if n < |ops| {
      PrefixIsRun(w, ops[..|ops| - 1], n);
      assert ops[..|ops| - 1][..n] == ops[..n];
    } else {
      assert ops[..n] == ops;
    }
  }
}
