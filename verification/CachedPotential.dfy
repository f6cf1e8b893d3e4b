/**
 Evaluation of a potential through the cache: the key of a configuration, one
 abstract evaluation, and operator() as the method that performs it.
 */
module CachedPotential {
  import opened KeyHash
  import opened Options
  import opened PotentialCache
  import Registry

  type Int32 = b: Bytes | |b| == 4 witness [0, 0, 0, 0]

  /** One configuration, as forceImpl sees it. */
  datatype Input = Input(nAtoms: nat, pos: seq<Double>, atmnrs: seq<Int32>, box: seq<Double>)
  {
    predicate Valid()
    {
      |pos| == 3 * nAtoms && |atmnrs| == nAtoms && |box| == 9
    }
  }

  const NO_BOX: seq<Double> := [ZERO, ZERO, ZERO, ZERO, ZERO, ZERO, ZERO, ZERO, ZERO]

  type Config = i: Input | i.Valid() witness Input(0, [], [], NO_BOX)

  /** How an evaluation ends; Undefined is a record copied out past its end. */
  datatype Outcome = Done(energy: Double, forces: seq<Double>) | Threw | Undefined

  /** A potential: its type tag, widened to eight bytes, and what forceImpl computes. */
  datatype Pot = Pot(kind: Word, force: Config -> Outcome)
  {
    /** forceImpl either throws or fills a matrix with a row for each atom. */
    ghost predicate Valid()
    {
      forall cfg: Config :: SizedFor(force(cfg), cfg.nAtoms)
    }
  }

  predicate SizedFor(o: Outcome, nAtoms: nat)
  {
    o.Threw? || (o.Done? && |o.forces| == 3 * nAtoms)
  }

  // ---------- The key ----------

  type Hash = Bytes -> bv64

  function FlatInts(ds: seq<Int32>): Bytes
  {
    if ds == [] then [] else FlatInts(ds[..|ds| - 1]) + ds[|ds| - 1]
  }

  /** Byte t of atomic number i lies at 4 i + t. */
  lemma {:induction false} FlatIntsByte(ds: seq<Int32>, i: nat, t: nat)
    requires i < |ds| && t < 4
    ensures |FlatInts(ds)| == 4 * |ds| && FlatInts(ds)[4 * i + t] == ds[i][t]
  {
    var last := |ds| - 1;
    if 0 < last { FlatIntsByte(ds[..last], if i < last then i else 0, t); }
  }

  function HashOf(hash: Hash, kind: Word, cfg: Config): bv64
  {
    Mixed(hash(Flat(cfg.pos)), hash(FlatInts(cfg.atmnrs)), hash(Flat(cfg.box)), hash(kind))
  }

  function Mixed(a: bv64, b: bv64, c: bv64, d: bv64): bv64 { a ^ b ^ c ^ d }

  function KeyFor(hash: Hash, kind: Word, cfg: Config): string
  {
    KeyOf(HashOf(hash, kind, cfg)).key
  }

  /** The same configuration with the position buffer and the box buffer exchanged; both hold nine doubles. */
  function Exchanged(cfg: Config): Config
    requires cfg.nAtoms == 3
  {
    Input(3, cfg.box, cfg.atmnrs, cfg.pos)
  }

  /** Whatever the hash function, three atoms and their cell can change places without changing the key. */
  lemma ExchangeCollides(hash: Hash, kind: Word, cfg: Config)
    requires cfg.nAtoms == 3
    ensures KeyFor(hash, kind, Exchanged(cfg)) == KeyFor(hash, kind, cfg)
  {
    assert HashOf(hash, kind, Exchanged(cfg)) == HashOf(hash, kind, cfg) by {
      ExchangedHash(hash, kind, cfg);
    }
  }

  lemma ExchangedHash(hash: Hash, kind: Word, cfg: Config)
    requires cfg.nAtoms == 3
    ensures HashOf(hash, kind, Exchanged(cfg)) == HashOf(hash, kind, cfg)
  {
    XorSwaps(hash(Flat(cfg.pos)), hash(FlatInts(cfg.atmnrs)), hash(Flat(cfg.box)), hash(kind));
  }

  lemma XorSwaps(a: bv64, b: bv64, c: bv64, d: bv64)
    ensures Mixed(c, b, a, d) == Mixed(a, b, c, d)
  {
  }

  /** Whatever the hash function, all configurations of three atoms whose positions are the cell vectors share a key. */
  lemma EqualBuffersCollide(hash: Hash, kind: Word, cfg: Config, other: Config)
    requires cfg.nAtoms == 3 && cfg.pos == cfg.box
    requires other.nAtoms == 3 && other.pos == other.box && other.atmnrs == cfg.atmnrs
    ensures KeyFor(hash, kind, other) == KeyFor(hash, kind, cfg)
  {
    assert HashOf(hash, kind, other) == HashOf(hash, kind, cfg) by {
      EqualBuffersHash(hash, kind, cfg, other);
    }
  }

  lemma EqualBuffersHash(hash: Hash, kind: Word, cfg: Config, other: Config)
    requires cfg.nAtoms == 3 && cfg.pos == cfg.box
    requires other.nAtoms == 3 && other.pos == other.box && other.atmnrs == cfg.atmnrs
    ensures HashOf(hash, kind, other) == HashOf(hash, kind, cfg)
  {
    XorCancels(hash(Flat(cfg.pos)), hash(FlatInts(cfg.atmnrs)), hash(kind));
    XorCancels(hash(Flat(other.pos)), hash(FlatInts(cfg.atmnrs)), hash(kind));
  }

  lemma XorFromZero(a: bv64)
    ensures 0 ^ a == a
  {
  }

  lemma XorCancels(a: bv64, b: bv64, d: bv64)
    ensures Mixed(a, b, a, d) == b ^ d
  {
  }

  /** For each of the four components: queries that differ only there share a key exactly when its bytes share a hash. */
  lemma KeyFollowsPositions(hash: Hash, kind: Word, cfg: Config, pos: seq<Double>)
    requires |pos| == 3 * cfg.nAtoms
    ensures KeyFor(hash, kind, cfg.(pos := pos)) == KeyFor(hash, kind, cfg) <==> hash(Flat(pos)) == hash(Flat(cfg.pos))
  {
    SameKeyIffSameHash(HashOf(hash, kind, cfg.(pos := pos)), HashOf(hash, kind, cfg));
    if hash(Flat(pos)) != hash(Flat(cfg.pos)) {
      FirstMatters(hash(Flat(cfg.pos)), hash(FlatInts(cfg.atmnrs)), hash(Flat(cfg.box)), hash(kind), hash(Flat(pos)));
    }
  }

  lemma KeyFollowsNumbers(hash: Hash, kind: Word, cfg: Config, atmnrs: seq<Int32>)
    requires |atmnrs| == cfg.nAtoms
    ensures KeyFor(hash, kind, cfg.(atmnrs := atmnrs)) == KeyFor(hash, kind, cfg) <==>
            hash(FlatInts(atmnrs)) == hash(FlatInts(cfg.atmnrs))
  {
    SameKeyIffSameHash(HashOf(hash, kind, cfg.(atmnrs := atmnrs)), HashOf(hash, kind, cfg));
    if hash(FlatInts(atmnrs)) != hash(FlatInts(cfg.atmnrs)) {
      SecondMatters(hash(Flat(cfg.pos)), hash(FlatInts(cfg.atmnrs)), hash(Flat(cfg.box)), hash(kind), hash(FlatInts(atmnrs)));
    }
  }

  lemma KeyFollowsBox(hash: Hash, kind: Word, cfg: Config, box: seq<Double>)
    requires |box| == 9
    ensures KeyFor(hash, kind, cfg.(box := box)) == KeyFor(hash, kind, cfg) <==> hash(Flat(box)) == hash(Flat(cfg.box))
  {
    SameKeyIffSameHash(HashOf(hash, kind, cfg.(box := box)), HashOf(hash, kind, cfg));
    if hash(Flat(box)) != hash(Flat(cfg.box)) {
      ThirdMatters(hash(Flat(cfg.pos)), hash(FlatInts(cfg.atmnrs)), hash(Flat(cfg.box)), hash(kind), hash(Flat(box)));
    }
  }

  lemma KeyFollowsKind(hash: Hash, kind: Word, cfg: Config, other: Word)
    ensures KeyFor(hash, other, cfg) == KeyFor(hash, kind, cfg) <==> hash(other) == hash(kind)
  {
    SameKeyIffSameHash(HashOf(hash, other, cfg), HashOf(hash, kind, cfg));
    if hash(other) != hash(kind) {
      FourthMatters(hash(Flat(cfg.pos)), hash(FlatInts(cfg.atmnrs)), hash(Flat(cfg.box)), hash(kind), hash(other));
    }
  }

  lemma FirstMatters(a: bv64, b: bv64, c: bv64, d: bv64, x: bv64)
    requires x != a
    ensures Mixed(x, b, c, d) != Mixed(a, b, c, d)
  {
  }

  lemma SecondMatters(a: bv64, b: bv64, c: bv64, d: bv64, x: bv64)
    requires x != b
    ensures Mixed(a, x, c, d) != Mixed(a, b, c, d)
  {
  }

  lemma ThirdMatters(a: bv64, b: bv64, c: bv64, d: bv64, x: bv64)
    requires x != c
    ensures Mixed(a, b, x, d) != Mixed(a, b, c, d)
  {
  }

  lemma FourthMatters(a: bv64, b: bv64, c: bv64, d: bv64, x: bv64)
    requires x != d
    ensures Mixed(a, b, c, x) != Mixed(a, b, c, d)
  {
  }

  // ---------- One evaluation ----------

  /** Which of the two store operations of an evaluation fail. */
  datatype Faults = Faults(get: bool, put: bool)

  const NO_FAULTS := Faults(false, false)

  type Shelf = map<string, Bytes>

  datatype Evaluation = Evaluation(outcome: Outcome, shelf: Option<Shelf>, calls: nat)

  /** A record read back for n atoms. */
  function ReadBack(record: Bytes, n: nat): (r: Outcome)
    ensures if 8 + 24 * n <= |record|
            then r.Done? && r.energy == record[..8] && |r.forces| == 3 * n &&
                 forall k :: 0 <= k < 3 * n ==> r.forces[k] == record[8 + 8 * k..16 + 8 * k]
            else r == Undefined
  {
    if HoldsForces(record, 3 * n) then Done(DoubleAt(record, 0), Forces(record, 3 * n)) else Undefined
  }

  /** Read, compute, write: o is what forceImpl gives. */
  function EvaluateUnder(key: string, o: Outcome, nAtoms: nat, shelf: Option<Shelf>, calls: nat, f: Faults): Evaluation
  {
    if shelf.Some? && key in shelf.value && !f.get then
      Evaluation(ReadBack(shelf.value[key], nAtoms), shelf, calls)
    else if !o.Done? then
      Evaluation(o, shelf, calls)
    else
      Evaluation(o, if shelf.Some? && !f.put then Some(shelf.value[key := Packed(o.energy, o.forces)]) else shelf, calls + 1)
  }

  function Evaluate(hash: Hash, pot: Pot, cfg: Config, shelf: Option<Shelf>, calls: nat, f: Faults): Evaluation
  {
    EvaluateUnder(KeyFor(hash, pot.kind, cfg), pot.force(cfg), cfg.nAtoms, shelf, calls, f)
  }

  /** The configuration is made of these arguments: the box row by row, and only as many types as atoms. */
  predicate Describes(cfg: Config, rows: nat, positions: seq<Double>, atmtypes: seq<Int32>, box: seq<seq<Double>>)
  {
    && |positions| == 3 * rows && rows <= |atmtypes| && |box| == 3 && (forall r :: 0 <= r < 3 ==> |box[r]| == 3)
    && cfg.nAtoms == rows && cfg.pos == positions
    && |cfg.atmnrs| == rows && (forall k :: 0 <= k < rows ==> cfg.atmnrs[k] == atmtypes[k])
    && (forall r, c :: 0 <= r < 3 && 0 <= c < 3 ==> cfg.box[3 * r + c] == box[r][c])
  }

  /** The configuration that operator() hands to forceImpl. */
  function ConfigOf(rows: nat, positions: seq<Double>, atmtypes: seq<Int32>, box: seq<seq<Double>>): (cfg: Config)
    requires |positions| == 3 * rows && rows <= |atmtypes|
    requires |box| == 3 && forall i :: 0 <= i < 3 ==> |box[i]| == 3
    ensures Describes(cfg, rows, positions, atmtypes, box)
  {
    Input(rows, positions, atmtypes[..rows], box[0] + box[1] + box[2])
  }

  /** The arguments determine the configuration. */
  lemma DescribedOnce(cfg: Config, rows: nat, positions: seq<Double>, atmtypes: seq<Int32>, box: seq<seq<Double>>)
    requires Describes(cfg, rows, positions, atmtypes, box)
    ensures cfg == ConfigOf(rows, positions, atmtypes, box)
  {
    var other := ConfigOf(rows, positions, atmtypes, box);
    assert cfg.atmnrs == other.atmnrs;
    forall q | 0 <= q < 9
      ensures cfg.box[q] == other.box[q]
    {
      assert q == 3 * (q / 3) + q % 3;
      assert cfg.box[3 * (q / 3) + q % 3] == box[q / 3][q % 3];
      assert other.box[3 * (q / 3) + q % 3] == box[q / 3][q % 3];
    }
  }

  /** What a caller sees of an evaluation that was answered from the store. */
  predicate FromStore(key: string, nAtoms: nat, r: Outcome, before: Option<Shelf>, after: Option<Shelf>, calls: nat, callsAfter: nat)
  {
    && before.Some? && key in before.value && r == ReadBack(before.value[key], nAtoms)
    && after == before && callsAfter == calls
  }

  /** And of one that was computed: counted unless it threw, and then filed under the key, unless a store lost it. */
  predicate Computed(key: string, own: Outcome, r: Outcome, before: Option<Shelf>, after: Option<Shelf>,
                     calls: nat, callsAfter: nat, reliable: bool)
  {
    && r == own && callsAfter == (if own.Done? then calls + 1 else calls)
    && (before.None? ==> after.None?)
    && (before.Some? && !own.Done? ==> after == before)
    && (before.Some? && own.Done? ==>
          var filed := before.value[key := Packed(own.energy, own.forces)];
          after == Some(filed) || (!reliable && after == before))
    && (reliable && before.Some? ==> key !in before.value)
  }

  lemma EvaluationSeen(hash: Hash, pot: Pot, cfg: Config, shelf: Option<Shelf>, calls: nat, f: Faults, reliable: bool)
    requires reliable ==> f == NO_FAULTS
    ensures var key, v := KeyFor(hash, pot.kind, cfg), Evaluate(hash, pot, cfg, shelf, calls, f);
            || FromStore(key, cfg.nAtoms, v.outcome, shelf, v.shelf, calls, v.calls)
            || Computed(key, pot.force(cfg), v.outcome, shelf, v.shelf, calls, v.calls, reliable)
  {
  }

  /** The contents behind a cache pointer, if there is a store. */
  function ShelfOf(cache: Cache?): Option<Shelf>
    reads cache, if cache == null then {} else {cache.db}
  {
    if cache == null || cache.db == null then None else Some(cache.db.data)
  }

  class Potential {
    const pot: Pot
    const hash: Hash
    const statics: Registry.Statics
    var cache: Cache?

    constructor (pot: Pot, hash: Hash, statics: Registry.Statics)
      ensures this.pot == pot && this.hash == hash && this.statics == statics && cache == null
    {
      this.pot, this.hash, this.statics, cache := pot, hash, statics, null;
    }

    method SetCache(c: Cache?)
      modifies this
      ensures cache == c
    {
      cache := c;
    }

    /** forceImpl: fills the force matrix in place, unless it throws. */
    method ForceImpl(cfg: Config, forces: array<Double>) returns (ok: bool, energy: Double)
      requires pot.Valid() && forces.Length == 3 * cfg.nAtoms
      modifies forces
      ensures ok ==> pot.force(cfg) == Done(energy, forces[..])
      ensures !ok ==> pot.force(cfg) == Threw
    {
      var o := pot.force(cfg);
      assert SizedFor(o, cfg.nAtoms);
      if o.Threw? {
        return false, ZERO;
      }
      var k := 0;
      while k < forces.Length
        invariant 0 <= k <= forces.Length
        invariant forces[..k] == o.forces[..k]
      {
        forces[k] := o.forces[k];
        k := k + 1;
      }
      return true, o.energy;
    }

    /** The nine doubles of the box, row by row. */
    method FlattenBox(box: seq<seq<Double>>) returns (flat: seq<Double>)
      requires |box| == 3 && forall i :: 0 <= i < 3 ==> |box[i]| == 3
      ensures |flat| == 9 && forall r, c :: 0 <= r < 3 && 0 <= c < 3 ==> flat[3 * r + c] == box[r][c]
      ensures flat == box[0] + box[1] + box[2]
    {
      var flatBox := new Double[9](_ => ZERO);
      for i := 0 to 3
        invariant forall r, c :: 0 <= r < i && 0 <= c < 3 ==> flatBox[3 * r + c] == box[r][c]
      {
        for j := 0 to 3
          invariant forall r, c :: 0 <= r < i && 0 <= c < 3 ==> flatBox[3 * r + c] == box[r][c]
          invariant forall c :: 0 <= c < j ==> flatBox[3 * i + c] == box[i][c]
        {
          flatBox[i * 3 + j] := box[i][j];
        }
      }
      flat := flatBox[..];
    }

    /** The exclusive or of the hashes of positions, atomic numbers, cell and type tag, accumulated. */
    method HashBuffers(fi: Config) returns (hashVal: bv64)
      ensures hashVal == hash(Flat(fi.pos)) ^ hash(FlatInts(fi.atmnrs)) ^ hash(Flat(fi.box)) ^ hash(pot.kind)
    {
      var a, b, c, d := hash(Flat(fi.pos)), hash(FlatInts(fi.atmnrs)), hash(Flat(fi.box)), hash(pot.kind);
      hashVal := 0;
      hashVal := hashVal ^ a;
      XorFromZero(a);
      hashVal := hashVal ^ b;
      hashVal := hashVal ^ c;
      hashVal := hashVal ^ d;
    }

    method MakeKey(fi: Config) returns (key: KeyHash)
      ensures key == KeyOf(HashOf(hash, pot.kind, fi)) && key.key == KeyFor(hash, pot.kind, fi)
    {
      var hashVal := HashBuffers(fi);
      key := KeyOf(hashVal);
    }

    /** The store behind the cache, if any, never fails. */
    predicate Reliable()
      reads this, cache, if cache == null then {} else {cache.db}
    {
      cache != null && cache.db != null && cache.db.reliable
    }

    /** operator() once the key is known: what it returns and leaves behind is one abstract evaluation. */
    method CallUnder(key: KeyHash, fi: Config) returns (r: Outcome)
      requires pot.Valid() && (cache != null ==> cache.Valid())
      modifies statics`forceCalls, if cache == null || cache.db == null then {} else {cache.db}
      ensures cache != null ==> cache.Valid()
      ensures exists f ::
                && (Reliable() ==> f == NO_FAULTS)
                && Evaluation(r, ShelfOf(cache), statics.forceCalls) ==
                   EvaluateUnder(key.key, pot.force(fi), fi.nAtoms, old(ShelfOf(cache)), old(statics.forceCalls), f)
    {
      var forces := new Double[3 * fi.nAtoms](_ => ZERO);
      ghost var shelf, calls, o := ShelfOf(cache), statics.forceCalls, pot.force(fi);
      ghost var f := NO_FAULTS;

      if cache != null {
        var hit := cache.Find(key);
        if hit.Some? {
          if HoldsForces(hit.value, forces.Length) {
            var energy := cache.DeserializeHit(hit.value, forces);
            r := Done(energy, forces[..]);
          } else {
            // The source copies past the end of the record here.
            r := Undefined;
          }
          assert Evaluation(r, ShelfOf(cache), statics.forceCalls) == EvaluateUnder(key.key, o, fi.nAtoms, shelf, calls, f);
          return;
        }
        f := f.(get := cache.db != null && key.key in cache.db.data);
      }

      var ok, energy := ForceImpl(fi, forces);
      if !ok {
        r := Threw;
        assert Evaluation(r, ShelfOf(cache), statics.forceCalls) == EvaluateUnder(key.key, o, fi.nAtoms, shelf, calls, f);
        return;
      }
      statics.IncrementForceCalls();

      if cache != null {
        cache.AddSerialized(key, energy, forces);
        f := f.(put := cache.db != null && !cache.db.reliable && ShelfOf(cache) == shelf);
      }
      r := Done(energy, forces[..]);
      assert Evaluation(r, ShelfOf(cache), statics.forceCalls) == EvaluateUnder(key.key, o, fi.nAtoms, shelf, calls, f);
    }

    /**
     operator(): one abstract evaluation of the configuration that the arguments describe; faults only if the store is
     unreliable. So the answer comes from the store or is the potential's own.
     */
    method Call(rows: nat, positions: seq<Double>, atmtypes: seq<Int32>, box: seq<seq<Double>>) returns (r: Outcome)
      requires pot.Valid() && |positions| == 3 * rows && rows <= |atmtypes|
      requires |box| == 3 && forall i :: 0 <= i < 3 ==> |box[i]| == 3
      requires cache != null ==> cache.Valid()
      modifies statics`forceCalls, if cache == null || cache.db == null then {} else {cache.db}
      ensures cache != null ==> cache.Valid()
      ensures forall cfg :: Describes(cfg, rows, positions, atmtypes, box) ==>
                exists f ::
                  && (Reliable() ==> f == NO_FAULTS)
                  && Evaluation(r, ShelfOf(cache), statics.forceCalls) ==
                     Evaluate(hash, pot, cfg, old(ShelfOf(cache)), old(statics.forceCalls), f)
      ensures forall cfg :: Describes(cfg, rows, positions, atmtypes, box) ==>
                var key, before, after := KeyFor(hash, pot.kind, cfg), old(ShelfOf(cache)), ShelfOf(cache);
                || FromStore(key, rows, r, before, after, old(statics.forceCalls), statics.forceCalls)
                || Computed(key, pot.force(cfg), r, before, after, old(statics.forceCalls), statics.forceCalls, Reliable())
      ensures r.Threw? ==> ShelfOf(cache) == old(ShelfOf(cache)) && statics.forceCalls == old(statics.forceCalls)
    {
      var flatBox := FlattenBox(box);
      var fi := Input(rows, positions, atmtypes[..rows], flatBox);
      var key := MakeKey(fi);
      r := CallUnder(key, fi);
      ghost var f :|
        && (Reliable() ==> f == NO_FAULTS)
        && Evaluation(r, ShelfOf(cache), statics.forceCalls) ==
           EvaluateUnder(key.key, pot.force(fi), fi.nAtoms, old(ShelfOf(cache)), old(statics.forceCalls), f);
      assert Evaluation(r, ShelfOf(cache), statics.forceCalls) ==
             Evaluate(hash, pot, fi, old(ShelfOf(cache)), old(statics.forceCalls), f);
      EvaluationSeen(hash, pot, fi, old(ShelfOf(cache)), old(statics.forceCalls), f, Reliable());
      forall cfg | Describes(cfg, rows, positions, atmtypes, box)
        ensures cfg == fi
      {
        DescribedOnce(cfg, rows, positions, atmtypes, box);
      }
    }
  }
}
