/** The Lennard-Jones potential behind the trampoline and the server, seen from the client. */
module RemoteLennardJones {
  import opened Options
  import opened Tensor
  import opened Rpc
  import LJ = LennardJones
  import FB = ForceBuffer

  /** The force buffer after an evaluation, row by row. */
  ghost function Rows(p: LJ.Params, cfg: LJ.ForceInput): seq<real>
    requires cfg.Valid()
  {
    seq(3 * cfg.nAtoms, q requires 0 <= q < 3 * cfg.nAtoms => LJ.Force(p, cfg, q / 3, q % 3))
  }

  /** What the source asks of a configuration: long enough buffers, a cell to divide by, no two interacting atoms in one place. */
  ghost predicate Proper(p: LJ.Params, cfg: LJ.ForceInput)
  {
    cfg.Valid() && LJ.Apart(p, cfg)
  }

  ghost function Config(n: nat, pos: seq<real>, atmnrs: Option<seq<int>>, cell: Option<seq<real>>): LJ.ForceInput
  {
    LJ.ForceInput(n, pos, if atmnrs.Some? then atmnrs.value else [], if cell.Some? then cell.value else [])
  }

  /** forceImpl of LJPot as the trampoline calls it; it is not called on improper configurations. */
  ghost function ImplOf(p: LJ.Params): Impl
  {
    (n: nat, pos: seq<real>, atmnrs: Option<seq<int>>, cell: Option<seq<real>>) =>
      var cfg := Config(n, pos, atmnrs, cell);
      if Proper(p, cfg) then Computed(LJ.Energy(p, cfg), 0.0, Rows(p, cfg)) else Throws
  }

  /** The method agrees with the function: running forceImpl on a zeroed buffer gives its energy and forces. */
  method RunForceImpl(pot: LJ.LJPot, ghost p: LJ.Params, sqrt: real -> real, cfg: LJ.ForceInput)
    returns (energy: real, variance: real, forces: seq<real>)
    requires p == pot.Fields() && LJ.IsSqrt(sqrt) && Proper(p, cfg)
    ensures energy == LJ.Energy(p, cfg) && variance == 0.0 && forces == Rows(p, cfg)
  {
    var buffer := new real[3 * cfg.nAtoms](_ => 0.0);
    var out := new LJ.ForceOut(buffer, 0.0, 0.0);
    pot.ForceImpl(sqrt, cfg, out);
    forces := buffer[..];
    energy, variance := out.energy, out.variance;
    BufferIsRows(p, cfg, forces);
  }

  lemma BufferIsRows(p: LJ.Params, cfg: LJ.ForceInput, F: seq<real>)
    requires cfg.Valid() && |F| == 3 * cfg.nAtoms
    requires forall k :: 0 <= k < cfg.nAtoms ==> FB.Atom(F, k) == LJ.ForceTables(p, cfg).Final(cfg.nAtoms, k)
    ensures F == Rows(p, cfg)
  {
    forall q | 0 <= q < 3 * cfg.nAtoms
      ensures F[q] == Rows(p, cfg)[q]
    {
      EntryOfRow(p, cfg, F, q);
    }
  }

  lemma EntryOfRow(p: LJ.Params, cfg: LJ.ForceInput, F: seq<real>, q: nat)
    requires cfg.Valid() && |F| == 3 * cfg.nAtoms && q < |F|
    requires forall k :: 0 <= k < cfg.nAtoms ==> FB.Atom(F, k) == LJ.ForceTables(p, cfg).Final(cfg.nAtoms, k)
    ensures F[q] == LJ.Force(p, cfg, q / 3, q % 3)
  {
    var k := q / 3;
    assert FB.Atom(F, k) == LJ.ForceTables(p, cfg).Final(cfg.nAtoms, k);
  }

  /**
   For every complete input with a proper configuration the client gets the Lennard-Jones energy, and the
   Lennard-Jones forces at their DLPack indices.
   */
  lemma ClientSeesLennardJones(p: LJ.Params, input: InputTensors, n: nat, before: Output, k: nat, c: nat)
    requires CompleteInput(input, n) && k < n && c < 3
    requires Proper(p, LJ.ForceInput(n, input.positions.value.data[..3 * n], input.numbers.value.data[..n], input.cell.value.data[..9]))
    ensures Readable(input) && FillsAllForces(TrampolineOf(ImplOf(p)))
    ensures var cfg := LJ.ForceInput(n, input.positions.value.data[..3 * n], input.numbers.value.data[..n], input.cell.value.data[..9]);
            var (after, r) := Remote(TrampolineOf(ImplOf(p)), true, input, before);
            && r.Ok? && after.energy == LJ.Energy(p, cfg)
            && after.forces.Some? && Built(after.forces.value) && after.forces.value.shape == [n, 3]
            && Offset([k, c], after.forces.value.strides) == 3 * k + c
            && ElementAt(after.forces.value, [k, c]) == LJ.Force(p, cfg, k, c)
  {
    FillsItsMatrix(p);
    RemoteTrampoline(ImplOf(p), input, n, before);
    var cfg := RunOfInput(p, input, n);
    RowsRead(p, cfg, k, c);
  }

  lemma RunOfInput(p: LJ.Params, input: InputTensors, n: nat) returns (cfg: LJ.ForceInput)
    requires CompleteInput(input, n)
    requires Proper(p, LJ.ForceInput(n, input.positions.value.data[..3 * n], input.numbers.value.data[..n], input.cell.value.data[..9]))
    ensures cfg == LJ.ForceInput(n, input.positions.value.data[..3 * n], input.numbers.value.data[..n], input.cell.value.data[..9])
    ensures cfg.Valid() && Run(ImplOf(p), input, n) == Computed(LJ.Energy(p, cfg), 0.0, Rows(p, cfg))
    ensures input.NAtoms() == Some(n)
  {
    var data := Contents(input, n);
    cfg := LJ.ForceInput(n, data.pos, data.atmnrs, data.cell);
    assert Config(n, data.pos, Some(data.atmnrs), Some(data.cell)) == cfg;
  }

  lemma RowsRead(p: LJ.Params, cfg: LJ.ForceInput, k: nat, c: nat)
    requires cfg.Valid() && k < cfg.nAtoms && c < 3 && 24 * cfg.nAtoms < TWO_TO_63
    ensures var t := CpuTensor(Rows(p, cfg), [cfg.nAtoms, 3]);
            Built(t) && Offset([k, c], t.strides) == 3 * k + c && ElementAt(t, [k, c]) == LJ.Force(p, cfg, k, c)
  {
    var t := CpuTensor(Rows(p, cfg), [cfg.nAtoms, 3]);
    SizeOfMatrix(cfg.nAtoms);
    RowsOfThree(t, cfg.nAtoms, k, c);
    assert (3 * k + c) / 3 == k && (3 * k + c) % 3 == c;
  }

  lemma SizeOfMatrix(n: int)
    ensures Product([n, 3]) == 3 * n
  {
    assert [n, 3][1..] == [3] && [3][1..] == [];
    assert Product([3]) == 3;
  }

  lemma FillsItsMatrix(p: LJ.Params)
    ensures FillsMatrix(ImplOf(p))
  {
  }
}
