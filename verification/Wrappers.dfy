/**
 The move-only C++ classes, and the C functions of the Rust core that they call,
 as objects updated in place.
 */
module Wrappers {
  import opened Allocation
  import opened Ownership

  /** The Rust core: everything it has allocated. */
  class Core {
    var alloc: Alloc

    /** Every live address was handed out by this core or belongs to the callers. */
    ghost predicate Valid()
      reads this
    {
      Ordered(alloc)
    }

    constructor (caller: set<Ptr>, next: Ptr)
      requires ValidStart(caller, next)
      ensures Valid() && alloc == Start(caller, next).alloc
    {
      alloc := Start(caller, next).alloc;
    }

    /** rgpot_tensor_free: no-op on null, otherwise the deleter of the tensor. */
    method TensorFree(p: Ptr)
      requires Valid()
      modifies this
      ensures Valid() && alloc == FreeTensor(old(alloc), p)
    {
      if p == NULL {
        return;
      }
      if p !in alloc.tensors {
        alloc := alloc.(corrupt := true);
        return;
      }
      var storage := alloc.tensors[p];
      if storage.Owned? {
        if storage.buffer !in alloc.buffers {
          alloc := alloc.(corrupt := true);
        }
        alloc := alloc.(buffers := alloc.buffers - {storage.buffer});
      }
      alloc := alloc.(tensors := alloc.tensors - {p});
    }

    /** A borrowed tensor: a fresh address, one more entry in the table, and no buffer touched. */
    method TensorCpu(buffer: Ptr) returns (p: Ptr)
      requires Valid()
      modifies this
      ensures Valid() && FreshIn(old(alloc), p) && p == old(alloc).next
      ensures alloc == old(alloc).(tensors := old(alloc).tensors[p := Borrowed(buffer)], next := p + 1)
    {
      p := alloc.next;
      alloc := NewBorrowed(alloc, buffer);
    }

    /** rgpot_tensor_owned_cpu_f64_2d: a fresh tensor around a fresh buffer, which it owns. */
    method TensorOwnedCpu() returns (p: Ptr)
      requires Valid()
      modifies this
      ensures Valid() && FreshIn(old(alloc), p) && p == old(alloc).next + 1
      ensures FreshIn(old(alloc), p - 1) && OwnsBuffer(alloc, p, p - 1)
      ensures alloc == old(alloc).(tensors := old(alloc).tensors[p := Owned(p - 1)], buffers := old(alloc).buffers + {p - 1}, next := p + 1)
    {
      var copy := alloc.next;
      p := copy + 1;
      alloc := NewOwned(alloc);
    }

    /** A fresh handle that keeps the user data and whether it is to be freed. */
    method PotentialNew(userData: Ptr, hasFree: bool) returns (p: Ptr)
      requires Valid()
      modifies this
      ensures Valid() && FreshIn(old(alloc), p) && p == old(alloc).next
      ensures alloc == old(alloc).(impls := old(alloc).impls[p := Impl(userData, hasFree)], next := p + 1)
      ensures alloc.impls[p].Releases() <==> hasFree && userData != NULL
    {
      p := alloc.next;
      alloc := NewImpl(alloc, userData, hasFree);
    }

    method PotentialFree(p: Ptr)
      requires Valid()
      modifies this
      ensures Valid() && alloc == FreeImpl(old(alloc), p)
    {
      if p == NULL {
        return;
      }
      if p !in alloc.impls {
        alloc := alloc.(corrupt := true);
        return;
      }
      var pot := alloc.impls[p];
      if pot.hasFree {
        if pot.userData != NULL {
          alloc := alloc.(released := alloc.released + multiset{p});
        }
      }
      alloc := alloc.(impls := alloc.impls - {p});
    }
  }

  class InputSpec {
    var nAtoms: nat
    var positions: Ptr
    var numbers: Ptr
    var box: Ptr

    function View(): Wrapper
      reads this
    {
      Input(nAtoms, positions, numbers, box)
    }

    constructor (core: Core, nAtoms: nat, pos: Ptr, atmnrs: Ptr, cell: Ptr)
      requires core.Valid()
      modifies core
      ensures core.Valid()
      ensures var a := old(core.alloc);
              core.alloc == Borrow3(a, pos, atmnrs, cell) && View() == Input(nAtoms, a.next, a.next + 1, a.next + 2)
      ensures Lends(core.alloc, positions, pos) && Lends(core.alloc, numbers, atmnrs) && Lends(core.alloc, box, cell)
      ensures this.nAtoms == nAtoms && core.alloc.buffers == old(core.alloc.buffers)
    {
      this.nAtoms := nAtoms;
      var p := core.TensorCpu(pos);
      var n := core.TensorCpu(atmnrs);
      var b := core.TensorCpu(cell);
      positions, numbers, box := p, n, b;
    }

    constructor Move(other: InputSpec)
      modifies other
      ensures View() == old(other.View()) && other.View() == Emptied(old(other.View()))
    {
      nAtoms, positions, numbers, box := other.nAtoms, other.positions, other.numbers, other.box;
      new;
      other.positions := NULL;
      other.numbers := NULL;
      other.box := NULL;
    }

    /** rgpot_force_input_free. */
    method FreeInput(core: Core)
      requires core.Valid()
      modifies this, core
      ensures core.Valid()
      ensures core.alloc == Release(old(core.alloc), old(View())) && View() == Emptied(old(View()))
    {
      core.TensorFree(positions);
      core.TensorFree(numbers);
      core.TensorFree(box);
      positions := NULL;
      numbers := NULL;
      box := NULL;
    }

    /** Move assignment; assigning an object to itself does nothing. */
    method MoveAssign(core: Core, other: InputSpec)
      requires core.Valid()
      modifies this, other, core
      ensures core.Valid()
      ensures other == this ==> core.alloc == old(core.alloc) && View() == old(View())
      ensures other != this ==>
                && core.alloc == Release(old(core.alloc), old(View()))
                && View() == old(other.View()) && other.View() == Emptied(old(other.View()))
    {
      if this != other {
        FreeInput(core);
        nAtoms := other.nAtoms;
        positions, numbers, box := other.positions, other.numbers, other.box;
        other.positions := NULL;
        other.numbers := NULL;
        other.box := NULL;
      }
    }

    method Destroy(core: Core)
      requires core.Valid()
      modifies this, core
      ensures core.Valid()
      ensures core.alloc == Release(old(core.alloc), old(View()))
    {
      FreeInput(core);
    }
  }

  class CalcResult {
    var forces: Ptr
    var energy: real
    var variance: real

    function View(): Wrapper
      reads this
    {
      Result(forces, energy, variance)
    }

    constructor ()
      ensures View() == Result(NULL, 0.0, 0.0)
    {
      forces, energy, variance := NULL, 0.0, 0.0;
    }

    constructor Move(other: CalcResult)
      modifies other
      ensures View() == old(other.View()) && other.View() == Emptied(old(other.View()))
    {
      forces, energy, variance := other.forces, other.energy, other.variance;
      new;
      other.forces := NULL;
    }

    method MoveAssign(core: Core, other: CalcResult)
      requires core.Valid()
      modifies this, other, core
      ensures core.Valid()
      ensures other == this ==> core.alloc == old(core.alloc) && View() == old(View())
      ensures other != this ==>
                && core.alloc == Release(old(core.alloc), old(View()))
                && View() == old(other.View()) && other.View() == Emptied(old(other.View()))
    {
      if this != other {
        if forces != NULL {
          core.TensorFree(forces);
        }
        forces, energy, variance := other.forces, other.energy, other.variance;
        other.forces := NULL;
      }
    }

    method Destroy(core: Core)
      requires core.Valid()
      modifies core
      ensures core.Valid()
      ensures core.alloc == Release(old(core.alloc), View())
    {
      if forces != NULL {
        core.TensorFree(forces);
      }
    }
  }

  class PotentialHandle {
    var handle: Ptr

    function View(): Wrapper
      reads this
    {
      Handle(handle)
    }

    /** from_callback: creates a potential with this user data and adopts it. */
    constructor (core: Core, userData: Ptr, hasFree: bool)
      requires core.Valid()
      modifies core
      ensures core.Valid()
      ensures core.alloc == NewImpl(old(core.alloc), userData, hasFree) && View() == Handle(old(core.alloc).next)
      ensures handle != NULL && handle in core.alloc.impls && core.alloc.impls[handle] == Impl(userData, hasFree)
    {
      var h := core.PotentialNew(userData, hasFree);
      handle := h;
    }

    constructor Move(other: PotentialHandle)
      modifies other
      ensures View() == old(other.View()) && other.View() == Emptied(old(other.View()))
    {
      handle := other.handle;
      new;
      other.handle := NULL;
    }

    method MoveAssign(core: Core, other: PotentialHandle)
      requires core.Valid()
      modifies this, other, core
      ensures core.Valid()
      ensures other == this ==> core.alloc == old(core.alloc) && View() == old(View())
      ensures other != this ==>
                && core.alloc == Release(old(core.alloc), old(View()))
                && View() == old(other.View()) && other.View() == Emptied(old(other.View()))
    {
      if this != other {
        if handle != NULL {
          core.PotentialFree(handle);
        }
        handle := other.handle;
        other.handle := NULL;
      }
    }

    method Destroy(core: Core)
      requires core.Valid()
      modifies core
      ensures core.Valid()
      ensures core.alloc == Release(old(core.alloc), View())
    {
      if handle != NULL {
        core.PotentialFree(handle);
      }
    }

    /** rgpot_potential_calculate: an error on a null handle, otherwise what the callback does. */
    method RunCallback(core: Core, r: Reply, output: CalcResult) returns (success: bool)
      requires core.Valid()
      requires output.View() == Result(NULL, 0.0, 0.0)
      modifies core, output
      ensures core.Valid()
      ensures handle == NULL ==> !success && core.alloc == old(core.alloc) && output.View() == old(output.View())
      ensures handle != NULL ==>
                && success == r.success && output.View() == Filled(old(core.alloc), r)
                && output.energy == r.energy && output.variance == r.variance && (output.forces != NULL <==> r.setsForces)
                && (r.setsForces ==> Owns(core.alloc, output.forces))
                && core.alloc == if r.setsForces then NewOwned(old(core.alloc)) else old(core.alloc)
    {
      if handle == NULL {
        return false;
      }
      output.energy := r.energy;
      output.variance := r.variance;
      if r.setsForces {
        var f := core.TensorOwnedCpu();
        output.forces := f;
      }
      return r.success;
    }

    /** calculate: null stands for the exception, on whose way out the local result is destroyed. */
    method Calculate(core: Core, r: Reply) returns (result: CalcResult?)
      requires core.Valid()
      modifies core
      ensures core.Valid()
      ensures result != null <==> handle != NULL && r.success
      ensures result != null ==>
                && fresh(result) && result.View() == Filled(old(core.alloc), r)
                && result.energy == r.energy && result.variance == r.variance && (result.forces != NULL <==> r.setsForces)
                && (r.setsForces ==> Owns(core.alloc, result.forces))
                && core.alloc == if r.setsForces then NewOwned(old(core.alloc)) else old(core.alloc)
      ensures handle == NULL ==> core.alloc == old(core.alloc)
      ensures handle != NULL && result == null ==>
                core.alloc == Release(if r.setsForces then NewOwned(old(core.alloc)) else old(core.alloc), Filled(old(core.alloc), r))
    {
      var local := new CalcResult();
      var success := RunCallback(core, r, local);
      if !success {
        local.Destroy(core);
        return null;
      }
      return local;
    }
  }
}
