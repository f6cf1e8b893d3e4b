/**
 A calculation over the network: what the client sends and receives, what the
 server does with the request, and how the whole compares with a local call.
 */
module Rpc {
  import opened Options
  import opened Allocation
  import opened Tensor
  import Ownership
  import Wrappers

  // ---------- The C structures ----------

  datatype Status = Success | InvalidParameter | InternalError | RpcError | BufferSizeError

  datatype InputTensors = InputTensors(positions: Option<DlTensor<real>>, numbers: Option<DlTensor<int>>, cell: Option<DlTensor<real>>)
  {
    /** n_atoms: the first extent of the positions, as an unsigned number. */
    function NAtoms(): Option<nat>
    {
      if positions.None? || positions.value.shape == [] then None else Some(positions.value.shape[0] % TWO_TO_64)
    }
  }

  /** What a callback returns and leaves in a fresh output structure. */
  datatype CallbackResult = CallbackResult(status: Status, forces: Option<DlTensor<real>>, energy: real, variance: real)

  type Callback = InputTensors -> CallbackResult

  // ---------- Messages ----------

  datatype Request = Request(pos: seq<real>, atmnrs: seq<int>, cell: seq<real>)

  datatype Reply = Answer(energy: real, forces: seq<real>) | Failure

  datatype Error =
    | UnknownAtoms | NoNumbers | NoCell
    | PositionsNotOnCpu | NumbersNotOnCpu | CellNotOnCpu
    | CallFailed | SizeMismatch

  datatype Result<+T> = Ok(value: T) | Err(error: Error)

  // ---------- The client ----------

  /** The buffers behind the CPU tensors are as long as the slices that the client takes of them, and no slice is too large. */
  predicate Readable(input: InputTensors)
  {
    input.NAtoms().Some? ==>
      var n := input.NAtoms().value;
      && (input.positions.value.device == Cpu ==> 3 * n <= |input.positions.value.data| && 24 * n < TWO_TO_63)
      && (input.numbers.Some? && input.numbers.value.device == Cpu ==> n <= |input.numbers.value.data|)
      && (input.cell.Some? && input.cell.value.device == Cpu ==> 9 <= |input.cell.value.data|)
  }

  /** extract_cpu_input, with its checks in order. */
  function Extract(input: InputTensors, n: nat): Result<Request>
    requires input.NAtoms() == Some(n) && Readable(input)
  {
    if input.positions.value.device != Cpu then Err(PositionsNotOnCpu)
    else if input.numbers.None? then Err(NoNumbers)
    else if input.numbers.value.device != Cpu then Err(NumbersNotOnCpu)
    else if input.cell.None? then Err(NoCell)
    else if input.cell.value.device != Cpu then Err(CellNotOnCpu)
    else Ok(Request(input.positions.value.data[..3 * n], input.numbers.value.data[..n], input.cell.value.data[..9]))
  }

  /** A request is made exactly when all three tensors are present and on the CPU; otherwise the first thing missing is reported. */
  lemma WhatExtractReports(input: InputTensors, n: nat)
    requires input.NAtoms() == Some(n) && Readable(input)
    ensures Extract(input, n).Ok? <==>
              && OnCpu(input.positions) && OnCpu(input.numbers) && OnCpu(input.cell)
    ensures Extract(input, n) != Err(UnknownAtoms)
    ensures Extract(input, n) == Err(PositionsNotOnCpu) <==> !OnCpu(input.positions)
    ensures Extract(input, n) == Err(NoNumbers) <==> OnCpu(input.positions) && input.numbers.None?
    ensures Extract(input, n) == Err(NumbersNotOnCpu) <==>
              OnCpu(input.positions) && input.numbers.Some? && !OnCpu(input.numbers)
    ensures Extract(input, n) == Err(NoCell) <==> OnCpu(input.positions) && OnCpu(input.numbers) && input.cell.None?
    ensures Extract(input, n) == Err(CellNotOnCpu) <==>
              OnCpu(input.positions) && OnCpu(input.numbers) && input.cell.Some? && !OnCpu(input.cell)
    ensures Extract(input, n).Ok? ==>
              var q := Extract(input, n).value;
              && |q.pos| == 3 * n && |q.atmnrs| == n && |q.cell| == 9
              && q.pos <= input.positions.value.data && q.atmnrs <= input.numbers.value.data && q.cell <= input.cell.value.data
  {
  }

  predicate OnCpu<T>(t: Option<DlTensor<T>>)
  {
    t.Some? && t.value.device == Cpu
  }

  /** rgpot_force_out_t */
  datatype Output = Output(forces: Option<DlTensor<real>>, energy: real, variance: real)

  /** t is an n by 3 tensor on the CPU that holds these numbers. */
  ghost predicate IsForces(t: Option<DlTensor<real>>, n: nat, numbers: seq<real>)
  {
    t.Some? && t.value.device == Cpu && t.value.shape == [n, 3] && RowMajor([n, 3], t.value.strides) && t.value.data == numbers
  }

  /** How the client takes in what came back; None is a connection or a call that failed. */
  function Received(before: Output, n: nat, reply: Option<Reply>): (Output, Result<()>)
  {
    match reply
    case None => (before, Err(CallFailed))
    case Some(Failure) => (before, Err(CallFailed))
    case Some(Answer(energy, forces)) =>
      if |forces| != 3 * n then (before.(energy := energy), Err(SizeMismatch))
      else (Output(Some(CpuTensor(forces, [n, 3])), energy, before.variance), Ok(()))
  }

  class ForceOut {
    var forces: Option<DlTensor<real>>
    var energy: real
    var variance: real

    constructor ()
      ensures View() == Output(None, 0.0, 0.0)
    {
      forces, energy, variance := None, 0.0, 0.0;
    }

    function View(): Output
      reads this
    {
      Output(forces, energy, variance)
    }
  }

  method CopyList<T(0)>(source: seq<T>) returns (list: seq<T>)
    ensures list == source
  {
    var builder := new T[|source|];
    var i := 0;
    while i < |source|
      invariant 0 <= i <= |source| && builder[..i] == source[..i]
    {
      builder[i] := source[i];
      i := i + 1;
    }
    list := builder[..];
  }

  /** The request half of calculate_async. */
  method BuildRequest(input: InputTensors) returns (n: nat, request: Result<Request>)
    requires Readable(input)
    ensures input.NAtoms().None? ==> request == Err(UnknownAtoms)
    ensures input.NAtoms().Some? ==> n == input.NAtoms().value && request == Extract(input, n)
    ensures request.Ok? <==> input.NAtoms().Some? && OnCpu(input.positions) && OnCpu(input.numbers) && OnCpu(input.cell)
    ensures request.Ok? ==> n == input.positions.value.shape[0] % TWO_TO_64
    ensures request.Ok? ==>
              request.value == Request(input.positions.value.data[..3 * n], input.numbers.value.data[..n], input.cell.value.data[..9])
    ensures request == Err(UnknownAtoms) <==> input.positions.None? || input.positions.value.shape == []
  {
    n := 0;
    if input.NAtoms().Some? { WhatExtractReports(input, input.NAtoms().value); }
    if input.NAtoms().None? {
      return 0, Err(UnknownAtoms);
    }
    n := input.NAtoms().value;
    var extracted := Extract(input, n);
    if extracted.Err? {
      return n, extracted;
    }
    var pos := CopyList(extracted.value.pos);
    var atmnrs := CopyList(extracted.value.atmnrs);
    var cell := CopyList(extracted.value.cell);
    request := Ok(Request(pos, atmnrs, cell));
  }

  /** The reply half of calculate_async. */
  method Receive(n: nat, reply: Option<Reply>, output: ForceOut) returns (r: Result<()>)
    modifies output
    ensures (output.View(), r) == Received(old(output.View()), n, reply)
    ensures reply.None? || reply.value.Failure? ==> r == Err(CallFailed) && output.View() == old(output.View())
    ensures reply.Some? && reply.value.Answer? ==>
              && output.energy == reply.value.energy && output.variance == old(output.variance)
              && (if |reply.value.forces| == 3 * n then r == Ok(()) && IsForces(output.forces, n, reply.value.forces)
                  else r == Err(SizeMismatch) && output.forces == old(output.forces))
  {
    if reply.None? || reply.value.Failure? {
      return Err(CallFailed);
    }
    output.energy := reply.value.energy;
    var forces := reply.value.forces;
    if |forces| != n * 3 {
      return Err(SizeMismatch);
    }
    var forcesVec := CopyList(forces);
    output.forces := Some(CpuTensor(forcesVec, [n, 3]));
    return Ok(());
  }

  // ---------- The server ----------

  /** The lengths that a well-formed request has. */
  predicate WellFormed(request: Request)
  {
    |request.pos| == 3 * |request.atmnrs| && |request.cell| == 9 && 24 * |request.atmnrs| < TWO_TO_63
  }

  /** Three CPU tensors that hold the lists of the request, of shapes n by 3, n, and 3 by 3. */
  ghost predicate WrapsLists(input: InputTensors, request: Request)
  {
    && IsCpuTensor(input.positions, request.pos, [|request.atmnrs|, 3])
    && IsCpuTensor(input.numbers, request.atmnrs, [|request.atmnrs|])
    && IsCpuTensor(input.cell, request.cell, [3, 3])
  }

  ghost predicate IsCpuTensor<T>(t: Option<DlTensor<T>>, data: seq<T>, shape: seq<int>)
  {
    t.Some? && t.value.device == Cpu && t.value.data == data && t.value.shape == shape && RowMajor(shape, t.value.strides)
  }

  /** The tensors that the server wraps around its copies of the lists. */
  function Unpacked(request: Request): (input: InputTensors)
    ensures WrapsLists(input, request)
  {
    var n := |request.atmnrs|;
    InputTensors(Some(CpuTensor(request.pos, [n, 3])), Some(CpuTensor(request.atmnrs, [n])), Some(CpuTensor(request.cell, [3, 3])))
  }

  /** If the callback sets forces, their buffer holds three components for each atom. */
  predicate FillsForces(r: CallbackResult, n: nat)
  {
    r.forces.Some? ==> 3 * n <= |r.forces.value.data|
  }

  /** A complete CPU input of n atoms; buffers may be longer than needed. */
  predicate CompleteInput(input: InputTensors, n: nat)
  {
    && input.positions.Some? && input.numbers.Some? && input.cell.Some?
    && input.positions.value.device == Cpu && input.numbers.value.device == Cpu && input.cell.value.device == Cpu
    && input.positions.value.shape == [n, 3] && 24 * n < TWO_TO_63
    && 3 * n <= |input.positions.value.data| && n <= |input.numbers.value.data| && 9 <= |input.cell.value.data|
  }

  function Contents(input: InputTensors, n: nat): Request
    requires CompleteInput(input, n)
  {
    Request(input.positions.value.data[..3 * n], input.numbers.value.data[..n], input.cell.value.data[..9])
  }

  /** The callback respects the size of the forces for complete inputs. */
  ghost predicate FillsAllForces(callback: Callback)
  {
    forall i, n :: CompleteInput(i, n) ==> FillsForces(callback(i), n)
  }

  lemma UnpackedIsComplete(request: Request)
    requires WellFormed(request)
    ensures CompleteInput(Unpacked(request), |request.atmnrs|) && Contents(Unpacked(request), |request.atmnrs|) == request
  {
  }

  function Packed(r: CallbackResult, n: nat): Reply
    requires FillsForces(r, n)
  {
    if r.status != Success then Failure
    else Answer(r.energy, if r.forces.Some? then r.forces.value.data[..3 * n] else [])
  }

  class PotentialServer {
    const callback: Callback

    constructor (callback: Callback)
      ensures this.callback == callback
    {
      this.callback := callback;
    }

    /** calculate: unpack, call back, read the forces, free every tensor, reply. */
    method Calculate(core: Wrappers.Core, ghost l: Ledger, buffers: Buffers, request: Request) returns (reply: Reply)
      requires FillsForces(callback(Unpacked(request)), |request.atmnrs|)
      requires Sane(core.alloc, l)
      modifies core
      ensures reply == Packed(callback(Unpacked(request)), |request.atmnrs|)
      ensures var n, local := |request.atmnrs|, callback(Unpacked(request));
              && (reply.Failure? <==> local.status != Success)
              && (reply.Answer? ==>
                    (reply.energy == local.energy &&
                     reply.forces == if local.forces.Some? then local.forces.value.data[..3 * n] else []))
      ensures core.alloc == old(core.alloc).(next := core.alloc.next)
    {
      SaneIsOrdered(core.alloc, l);
      var nAtoms := |request.atmnrs|;
      var input := Unpack(request);
      var tensors := WrapBuffers(core, buffers);

      var output := callback(input);
      var forces := NewForces(core, output.forces.Some?);

      var forcesCopy: seq<real> := [];
      if output.forces.Some? {
        forcesCopy := output.forces.value.data[..nAtoms * 3];
      }
      FreeAll(core, old(core.alloc), l, buffers, output.forces.Some?, forces, tensors);

      if output.status != Success {
        return Failure;
      }
      var list := CopyList(forcesCopy);
      reply := Answer(output.energy, list);
    }
  }

  /** Where the server's copies of the three lists lie, and where the tensors around them lie. */
  datatype Buffers = Buffers(pos: Ptr, atmnrs: Ptr, cell: Ptr)

  method Unpack(request: Request) returns (input: InputTensors)
    ensures WrapsLists(input, request) && input == Unpacked(request)
  {
    var nAtoms := |request.atmnrs|;
    var posVec := CopyList(request.pos);
    var atmVec := CopyList(request.atmnrs);
    var boxVec := CopyList(request.cell);
    input := InputTensors(Some(CpuTensor(posVec, [nAtoms, 3])), Some(CpuTensor(atmVec, [nAtoms])), Some(CpuTensor(boxVec, [3, 3])));
  }

  method WrapBuffers(core: Wrappers.Core, buffers: Buffers) returns (tensors: Buffers)
    requires core.Valid()
    modifies core
    ensures core.Valid()
    ensures var a := old(core.alloc);
            core.alloc == Ownership.Borrow3(a, buffers.pos, buffers.atmnrs, buffers.cell) && tensors == Buffers(a.next, a.next + 1, a.next + 2)
  {
    var p := core.TensorCpu(buffers.pos);
    var n := core.TensorCpu(buffers.atmnrs);
    var c := core.TensorCpu(buffers.cell);
    tensors := Buffers(p, n, c);
  }

  /** The forces tensor that the callback allocates, if it sets the forces. */
  method NewForces(core: Wrappers.Core, setsForces: bool) returns (f: Ptr)
    requires core.Valid()
    modifies core
    ensures core.Valid()
    ensures setsForces ==> core.alloc == NewOwned(old(core.alloc)) && f == old(core.alloc).next + 1
    ensures !setsForces ==> core.alloc == old(core.alloc) && f == NULL
  {
    f := NULL;
    if setsForces {
      f := core.TensorOwnedCpu();
    }
  }

  /** What one call has allocated before it frees. */
  function Loaded(a: Alloc, buffers: Buffers, setsForces: bool): Alloc
  {
    var three := Ownership.Borrow3(a, buffers.pos, buffers.atmnrs, buffers.cell);
    if setsForces then NewOwned(three) else three
  }

  /** Frees the four tensors and so restores a, except that addresses are used up. */
  method FreeAll(core: Wrappers.Core, ghost a: Alloc, ghost l: Ledger, ghost buffers: Buffers, ghost setsForces: bool,
                 forces: Ptr, tensors: Buffers)
    requires Sane(a, l) && core.alloc == Loaded(a, buffers, setsForces)
    requires forces == (if setsForces then a.next + 4 else NULL) && tensors == Buffers(a.next, a.next + 1, a.next + 2)
    requires core.Valid()
    modifies core
    ensures core.Valid()
    ensures core.alloc == a.(next := core.alloc.next)
  {
    core.TensorFree(forces);
    core.TensorFree(tensors.pos);
    core.TensorFree(tensors.atmnrs);
    core.TensorFree(tensors.cell);
    assert core.alloc == Freed(old(core.alloc), forces, tensors);
    ServedTensors(a, l, buffers, setsForces);
  }

  function Freed(a: Alloc, forces: Ptr, tensors: Buffers): Alloc
  {
    FreeTensor(FreeTensor(FreeTensor(FreeTensor(a, forces), tensors.pos), tensors.atmnrs), tensors.cell)
  }

  /** The tensors that one call allocates are all freed, whether or not the callback set the forces: only addresses are used up. */
  lemma ServedTensors(a: Alloc, l: Ledger, buffers: Buffers, setsForces: bool)
    requires Sane(a, l)
    ensures var after := Freed(Loaded(a, buffers, setsForces), if setsForces then a.next + 4 else NULL,
                               Buffers(a.next, a.next + 1, a.next + 2));
            Sane(after, l) && after == a.(next := after.next)
  {
    var three := WrappedBuffers(a, l, buffers);
    var freed := ForcesFreed(three, l, setsForces);
    BorrowedAreFreedAgain(a, l, buffers, three, freed);
  }

  lemma ForcesFreed(three: Alloc, l: Ledger, setsForces: bool) returns (freed: Alloc)
    requires Sane(three, l)
    ensures freed == FreeTensor(if setsForces then NewOwned(three) else three, if setsForces then three.next + 1 else NULL)
    ensures Sane(freed, l) && freed == three.(next := freed.next)
  {
    Ownership.ForcesAreFreedAgain(three, l, Ownership.Reply(setsForces, 0.0, 0.0, true));
    freed := FreeTensor(if setsForces then NewOwned(three) else three, if setsForces then three.next + 1 else NULL);
  }

  lemma BorrowedAreFreedAgain(a: Alloc, l: Ledger, buffers: Buffers, three: Alloc, freed: Alloc)
    requires AddressesFreshAfter(a) && Sane(freed, l) && freed == three.(next := freed.next)
    requires three.(next := a.next) == a.(tensors := WithThree(a, buffers))
    ensures var after := FreeTensor(FreeTensor(FreeTensor(freed, a.next), a.next + 1), a.next + 2);
            Sane(after, l) && after == a.(next := after.next)
  {
    ThreeAreLive(a, buffers);
    FreeThreeIsSane(freed, l, a.next, a.next + 1, a.next + 2);
    BorrowedFreedInPlace(freed, a.next, a.next + 1, a.next + 2);
    ThreeOut(a.tensors, a.next, a.next + 1, a.next + 2, Borrowed(buffers.pos), Borrowed(buffers.atmnrs), Borrowed(buffers.cell));
  }

  lemma ThreeAreLive(a: Alloc, buffers: Buffers)
    requires AddressesFreshAfter(a)
    ensures var m := WithThree(a, buffers);
            && {a.next, a.next + 1, a.next + 2} <= m.Keys
            && m[a.next].Borrowed? && m[a.next + 1].Borrowed? && m[a.next + 2].Borrowed?
  {
  }

  lemma ThreeOut(m: map<Ptr, Storage>, p: Ptr, q: Ptr, r: Ptr, s: Storage, t: Storage, u: Storage)
    requires p !in m && q !in m && r !in m && p != q && q != r && p != r
    ensures m[p := s][q := t][r := u] - {p} - {q} - {r} == m
  {
  }

  predicate AddressesFreshAfter(a: Alloc)
  {
    0 < a.next && a.next !in a.tensors && a.next + 1 !in a.tensors && a.next + 2 !in a.tensors
  }

  function WithThree(a: Alloc, buffers: Buffers): map<Ptr, Storage>
  {
    a.tensors[a.next := Borrowed(buffers.pos)][a.next + 1 := Borrowed(buffers.atmnrs)][a.next + 2 := Borrowed(buffers.cell)]
  }

  lemma WrappedBuffers(a: Alloc, l: Ledger, buffers: Buffers) returns (three: Alloc)
    requires Sane(a, l)
    ensures three == Ownership.Borrow3(a, buffers.pos, buffers.atmnrs, buffers.cell) && Sane(three, l)
    ensures three.next == a.next + 3 && AddressesFreshAfter(a) && three.(next := a.next) == a.(tensors := WithThree(a, buffers))
  {
    NewBorrowedIsSane(a, l, buffers.pos);
    var one := NewBorrowed(a, buffers.pos);
    NewBorrowedIsSane(one, l, buffers.atmnrs);
    var two := NewBorrowed(one, buffers.atmnrs);
    NewBorrowedIsSane(two, l, buffers.cell);
    three := NewBorrowed(two, buffers.cell);
  }

  /** Freeing borrowed tensors touches nothing but the table of tensors. */
  lemma BorrowedFreedInPlace(a: Alloc, p: Ptr, q: Ptr, r: Ptr)
    requires p != q && q != r && p != r && {p, q, r} <= a.tensors.Keys
    requires a.tensors[p].Borrowed? && a.tensors[q].Borrowed? && a.tensors[r].Borrowed? && NULL !in {p, q, r}
    ensures FreeTensor(FreeTensor(FreeTensor(a, p), q), r) == a.(tensors := a.tensors - {p} - {q} - {r})
  {
  }

  // ---------- Client and server together ----------

  /**
   A remote call on n atoms against what the callback gives locally: it succeeds exactly when the callback succeeds and set the
   forces or there are no atoms; then it has the local energy and forces. Otherwise the forces are untouched, and the energy
   is overwritten only if the callback succeeded. The variance is never touched.
   */
  ghost predicate RefinesLocal(local: CallbackResult, n: nat, before: Output, after: Output, r: Result<()>)
    requires FillsForces(local, n)
  {
    && (r.Ok? <==> local.status == Success && (local.forces.Some? || n == 0))
    && after.variance == before.variance
    && after.energy == (if local.status == Success then local.energy else before.energy)
    && (if r.Ok? then IsForces(after.forces, n, if local.forces.Some? then local.forces.value.data[..3 * n] else [])
        else after.forces == before.forces)
  }

  /** calculate on the client against a server; reachable says whether the network delivers both messages. */
  method RemoteCall(server: PotentialServer, core: Wrappers.Core, ghost l: Ledger, buffers: Buffers,
                    reachable: bool, input: InputTensors, output: ForceOut) returns (r: Result<()>)
    requires Readable(input) && Sane(core.alloc, l)
    requires FillsAllForces(server.callback)
    modifies core, output
    ensures (output.View(), r) == Remote(server.callback, reachable, input, old(output.View()))
    ensures r.Ok? ==>
              reachable && input.NAtoms().Some? && OnCpu(input.positions) && OnCpu(input.numbers) && OnCpu(input.cell)
    ensures !(reachable && input.NAtoms().Some? && OnCpu(input.positions) && OnCpu(input.numbers) && OnCpu(input.cell)) ==>
              r.Err? && output.View() == old(output.View())
    ensures !reachable && input.NAtoms().Some? && OnCpu(input.positions) && OnCpu(input.numbers) && OnCpu(input.cell) ==>
              r == Err(CallFailed)
    ensures output.variance == old(output.variance)
    ensures reachable && DependsOnContents(server.callback) ==>
              forall n :: CompleteInput(input, n) ==>
                RefinesLocal(server.callback(input), n, old(output.View()), output.View(), r)
    ensures core.alloc == old(core.alloc).(next := core.alloc.next)
  {
    var n, request := BuildRequest(input);
    if request.Err? {
      return Err(request.error);
    }
    if DependsOnContents(server.callback) {
      forall n | CompleteInput(input, n)
        ensures RefinesLocal(server.callback(input), n, output.View(), Remote(server.callback, true, input, output.View()).0,
                             Remote(server.callback, true, input, output.View()).1)
      {
        RemoteRefinesLocal(server.callback, input, n, output.View());
      }
    }
    if !reachable {
      r := Receive(n, None, output);
    } else {
      UnpackedIsComplete(request.value);
      var reply := server.Calculate(core, l, buffers, request.value);
      r := Receive(n, Some(reply), output);
    }
  }

  /** The remote calculation as a function. */
  ghost function Remote(callback: Callback, reachable: bool, input: InputTensors, before: Output): (Output, Result<()>)
    requires Readable(input)
    requires FillsAllForces(callback)
  {
    if input.NAtoms().None? then (before, Err(UnknownAtoms))
    else
      var n := input.NAtoms().value;
      var request := Extract(input, n);
      if request.Err? then (before, Err(request.error))
      else
        UnpackedIsComplete(request.value);
        Received(before, n, if reachable then Some(Packed(callback(Unpacked(request.value)), n)) else None)
  }

  // ---------- Refinement of the local call ----------

  /** A callback that looks only at the atoms and the cell. */
  ghost predicate DependsOnContents(callback: Callback)
  {
    forall i, j, n :: CompleteInput(i, n) && CompleteInput(j, n) && Contents(i, n) == Contents(j, n) ==> callback(i) == callback(j)
  }

  /** Against a reachable server the remote call refines the local one. */
  lemma RemoteRefinesLocal(callback: Callback, input: InputTensors, n: nat, before: Output)
    requires CompleteInput(input, n) && DependsOnContents(callback)
    requires FillsAllForces(callback)
    ensures Readable(input)
    ensures var (after, r) := Remote(callback, true, input, before); RefinesLocal(callback(input), n, before, after, r)
  {
    var request := Contents(input, n);
    UnpackedIsComplete(request);
    assert callback(Unpacked(request)) == callback(input);
  }

  // ---------- The trampoline around a C++ potential ----------

  /** What forceImpl leaves in ForceOut, or that it throws. */
  datatype ImplResult = Computed(energy: real, variance: real, forces: seq<real>) | Throws

  /** forceImpl, given the number of atoms and the raw buffers; the last two pointers may be null. */
  type Impl = (nat, seq<real>, Option<seq<int>>, Option<seq<real>>) -> ImplResult

  ghost predicate FillsMatrix(impl: Impl)
  {
    forall n: nat, pos, atmnrs, cell :: impl(n, pos, atmnrs, cell).Computed? ==> |impl(n, pos, atmnrs, cell).forces| == 3 * n
  }

  /** The first k elements behind a pointer. */
  function Front<T>(data: seq<T>, k: nat): seq<T>
  {
    if k <= |data| then data[..k] else data
  }

  function Run(impl: Impl, input: InputTensors, n: nat): ImplResult
    requires input.positions.Some?
  {
    impl(n, Front(input.positions.value.data, 3 * n),
         if input.numbers.Some? then Some(Front(input.numbers.value.data, n)) else None,
         if input.cell.Some? then Some(Front(input.cell.value.data, 9)) else None)
  }

  /** trampoline_callback against a fresh output. */
  function Trampoline(impl: Impl, input: InputTensors): CallbackResult
  {
    if input.NAtoms().None? then CallbackResult(InvalidParameter, None, 0.0, 0.0)
    else
      var n := input.NAtoms().value;
      match Run(impl, input, n)
      case Throws => CallbackResult(InternalError, None, 0.0, 0.0)
      case Computed(e, v, f) => CallbackResult(Success, Some(CpuTensor(f, [n, 3])), e, v)
  }

  function TrampolineOf(impl: Impl): Callback
  {
    input => Trampoline(impl, input)
  }

  /** The buffers behind the tensors that are there hold what forceImpl may read of them. */
  predicate RawReadable(input: InputTensors)
  {
    && input.positions.Some? && input.positions.value.shape != []
    && (var n := input.positions.value.shape[0] % TWO_TO_64;
        && 3 * n <= |input.positions.value.data|
        && (input.numbers.Some? ==> n <= |input.numbers.value.data|)
        && (input.cell.Some? ==> 9 <= |input.cell.value.data|))
  }

  /** trampoline_callback: an error leaves the output as it was. */
  method TrampolineCallback(impl: Impl, input: InputTensors, output: ForceOut) returns (status: Status)
    requires FillsMatrix(impl) && (input.positions.Some? ==> input.positions.value.shape != [])
    modifies output
    ensures input.positions.None? ==> status == InvalidParameter
    ensures RawReadable(input) ==>
              var n := input.positions.value.shape[0] % TWO_TO_64;
              var run := impl(n, input.positions.value.data[..3 * n],
                              if input.numbers.Some? then Some(input.numbers.value.data[..n]) else None,
                              if input.cell.Some? then Some(input.cell.value.data[..9]) else None);
              if run.Throws? then status == InternalError
              else && status == Success && output.energy == run.energy && output.variance == run.variance
                   && IsForces(output.forces, n, run.forces)
    ensures status == Trampoline(impl, input).status
    ensures status == Success ==> var r := Trampoline(impl, input); output.View() == Output(r.forces, r.energy, r.variance)
    ensures status != Success ==> output.View() == old(output.View())
  {
    if input.positions.None? {
      return InvalidParameter;
    }
    var nAtoms := input.positions.value.shape[0] % TWO_TO_64;
    var r := Run(impl, input, nAtoms);
    if r.Throws? {
      return InternalError;
    }
    var forces := new real[nAtoms * 3](_ => 0.0);
    var k := 0;
    while k < forces.Length
      invariant 0 <= k <= forces.Length && forces[..k] == r.forces[..k]
    {
      forces[k] := r.forces[k];
      k := k + 1;
    }
    assert forces[..] == r.forces;
    output.energy := r.energy;
    output.variance := r.variance;
    output.forces := Some(CpuTensor(forces[..], [nAtoms, 3]));
    return Success;
  }

  lemma TrampolineIsACallback(impl: Impl)
    requires FillsMatrix(impl)
    ensures DependsOnContents(TrampolineOf(impl)) && FillsAllForces(TrampolineOf(impl))
  {
    forall i, j, n | CompleteInput(i, n) && CompleteInput(j, n) && Contents(i, n) == Contents(j, n)
      ensures TrampolineOf(impl)(i) == TrampolineOf(impl)(j)
    {
      SameContentsSameRun(impl, i, j, n);
    }
  }

  lemma SameContentsSameRun(impl: Impl, i: InputTensors, j: InputTensors, n: nat)
    requires CompleteInput(i, n) && CompleteInput(j, n) && Contents(i, n) == Contents(j, n) && FillsMatrix(impl)
    ensures Run(impl, i, n) == Run(impl, j, n) && Trampoline(impl, i) == Trampoline(impl, j)
  {
  }

  /** A C++ potential behind the server: unless it throws, the client's output is the local one but for the variance. */
  lemma RemoteTrampoline(impl: Impl, input: InputTensors, n: nat, before: Output)
    requires CompleteInput(input, n) && FillsMatrix(impl)
    ensures Readable(input) && FillsAllForces(TrampolineOf(impl))
    ensures var run := impl(n, input.positions.value.data[..3 * n], Some(input.numbers.value.data[..n]), Some(input.cell.value.data[..9]));
            var (after, r) := Remote(TrampolineOf(impl), true, input, before);
            && (r.Ok? <==> run.Computed?)
            && (r.Ok? ==> after.energy == run.energy && after.variance == before.variance && IsForces(after.forces, n, run.forces))
            && (r.Err? ==> after == before)
  {
    TrampolineIsACallback(impl);
    RemoteRefinesLocal(TrampolineOf(impl), input, n, before);
    var run := Run(impl, input, n);
    assert input.NAtoms() == Some(n);
    if run.Computed? {
      assert |run.forces| == 3 * n && run.forces[..3 * n] == run.forces;
      assert Trampoline(impl, input).forces == Some(CpuTensor(run.forces, [n, 3]));
    }
  }
}
