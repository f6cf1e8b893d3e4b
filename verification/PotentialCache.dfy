/**
 The evaluation cache: energies and forces packed into byte strings, filed in a
 key-value store that the cache may own or borrow and that may fail.
 */
module PotentialCache {
  import opened KeyHash
  import opened Options

  type Bytes = seq<bv8>

  const ZERO_BYTES: Bytes := [0, 0, 0, 0, 0, 0, 0, 0]

  /** A double, as the eight bytes that memcpy moves. */
  type Double = b: Bytes | |b| == 8 witness ZERO_BYTES

  const ZERO: Double := ZERO_BYTES

  /** A size_t, as its eight bytes. */
  type Word = b: Bytes | |b| == 8 witness ZERO_BYTES

  // ---------- The record of one evaluation ----------

  /** Doubles as they lie in memory. */
  function Flat(ds: seq<Double>): (b: Bytes)
    ensures |b| == 8 * |ds|
  {
    if ds == [] then [] else Flat(ds[..|ds| - 1]) + ds[|ds| - 1]
  }

  /** The double at position i of b. */
  function DoubleAt(b: Bytes, i: nat): Double
    requires 8 * i + 8 <= |b|
  {
    b[8 * i..8 * i + 8]
  }

  lemma {:induction false} FlatAt(ds: seq<Double>, i: nat)
    requires i < |ds|
    ensures DoubleAt(Flat(ds), i) == ds[i]
  {
    var last := |ds| - 1;
    if i < last {
      FlatAt(ds[..last], i);
      assert Flat(ds)[8 * i..8 * i + 8] == Flat(ds[..last])[8 * i..8 * i + 8];
    } else {
      assert Flat(ds)[8 * last..8 * last + 8] == ds[last];
    }
  }

  /** The layout of a record: the energy, then the forces. */
  function Packed(energy: Double, forces: seq<Double>): Bytes
  {
    energy + Flat(forces)
  }

  /** A record long enough for m force components. */
  predicate HoldsForces(record: Bytes, m: nat)
  {
    8 + 8 * m <= |record|
  }

  /** The first m force components of a record. */
  function Forces(record: Bytes, m: nat): seq<Double>
    requires HoldsForces(record, m)
  {
    seq(m, k requires 0 <= k < m => DoubleAt(record, k + 1))
  }

  /** What was packed is read back, and also the leading part of it. */
  lemma PackedRoundTrip(energy: Double, forces: seq<Double>, m: nat)
    ensures HoldsForces(Packed(energy, forces), m) <==> m <= |forces|
    ensures DoubleAt(Packed(energy, forces), 0) == energy
    ensures m <= |forces| ==> Forces(Packed(energy, forces), m) == forces[..m]
  {
    var record := Packed(energy, forces);
    if m <= |forces| {
      forall k | 0 <= k < m
        ensures Forces(record, m)[k] == forces[k]
      {
        assert record[8..] == Flat(forces);
        assert record[8 * (k + 1)..8 * (k + 1) + 8] == Flat(forces)[8 * k..8 * k + 8];
        FlatAt(forces, k);
      }
    }
  }

  /** Byte t of double i lies at 8 i + t. */
  lemma FlatByte(ds: seq<Double>, i: nat, t: nat)
    requires i < |ds| && t < 8
    ensures 8 * i + t < |Flat(ds)| && Flat(ds)[8 * i + t] == ds[i][t]
  {
    FlatAt(ds, i);
    assert Flat(ds)[8 * i..8 * i + 8][t] == Flat(ds)[8 * i + t];
  }

  /** The layout of a record, byte by byte: the energy first, then each force component. */
  lemma RecordLayout(energy: Double, forces: seq<Double>, k: nat, t: nat)
    requires t < 8
    ensures |Packed(energy, forces)| == 8 + 8 * |forces| && Packed(energy, forces)[t] == energy[t]
    ensures k < |forces| ==> Packed(energy, forces)[8 + 8 * k + t] == forces[k][t]
  {
    if k < |forces| {
      FlatByte(forces, k, t);
      assert Packed(energy, forces)[8 + 8 * k + t] == Flat(forces)[8 * k + t];
    }
  }

  /** memcpy. */
  method CopyInto(dst: array<bv8>, at: nat, src: Bytes)
    requires at + |src| <= dst.Length
    modifies dst
    ensures dst[..] == old(dst[..at]) + src + old(dst[at + |src|..])
  {
    var k := 0;
    while k < |src|
      invariant 0 <= k <= |src|
      invariant forall i {:trigger dst[i]} :: 0 <= i < dst.Length ==> dst[i] == if at <= i < at + k then src[i - at] else old(dst[i])
    {
      dst[at + k] := src[k];
      k := k + 1;
    }
  }

  // ---------- The store ----------

  /** A key-value store. Get may fail for any reason, and Put may not take effect; a reliable store does neither. */
  class Store {
    const reliable: bool
    var data: map<string, Bytes>
    var isOpen: bool

    constructor (reliable: bool)
      ensures this.reliable == reliable && isOpen && data == map[]
    {
      this.reliable := reliable;
      data, isOpen := map[], true;
    }

    method Get(key: string) returns (ok: bool, value: Bytes)
      requires isOpen
      ensures ok ==> key in data && value == data[key]
      ensures reliable ==> (ok <==> key in data)
    {
      var fails: bool := *;
      ok := key in data && (reliable || !fails);
      value := if ok then data[key] else [];
    }

    method Put(key: string, value: Bytes)
      requires isOpen
      modifies this`data
      ensures data == old(data)[key := value] || (!reliable && data == old(data))
    {
      var fails: bool := *;
      if reliable || !fails {
        data := data[key := value];
      }
    }

    /** Deleting an open store closes it, once. */
    method Close()
      requires isOpen
      modifies this`isOpen
      ensures !isOpen
    {
      isOpen := false;
    }
  }

  class Cache {
    var db: Store?
    var ownDb: bool

    /** The store is usable, and there is one if the cache owns it. */
    predicate Valid()
      reads this, db
    {
      (ownDb ==> db != null) && (db != null ==> db.isOpen)
    }

    constructor ()
      ensures Valid() && db == null
    {
      db, ownDb := null, false;
    }

    /** Opening a database; handle is null when that fails. */
    constructor Open(handle: Store?)
      requires handle != null ==> handle.isOpen
      ensures Valid() && db == handle && (ownDb <==> handle != null)
    {
      db := handle;
      ownDb := handle != null;
    }

    /** Closes the store if the cache owns it, and only then. */
    method Destroy()
      requires Valid()
      modifies if ownDb then {db} else {}
      ensures db != null ==> (db.isOpen <==> !ownDb)
    {
      if ownDb && db != null {
        db.Close();
      }
    }

    /**
     Borrows another store; an owned one is closed first, a borrowed one is left alone. Passing the store that the cache
     already owns closes it under the cache: the cache stays usable exactly in all other cases.
     */
    method SetDb(other: Store?)
      requires Valid() && (other != null ==> other.isOpen)
      modifies this, if ownDb then {db} else {}
      ensures db == other && !ownDb
      ensures Valid() <==> !(old(ownDb) && other == old(db))
      ensures var before := old(db); before != null && before != other ==> (before.isOpen <==> !old(ownDb))
      ensures other != null && other != old(db) ==> other.isOpen
    {
      if ownDb && db != null {
        db.Close();
      }
      db := other;
      ownDb := false;
    }

    method Find(key: KeyHash) returns (hit: Option<Bytes>)
      requires Valid()
      ensures hit.Some? ==> db != null && key.key in db.data && hit.value == db.data[key.key]
      ensures db != null && db.reliable ==> (hit.Some? <==> key.key in db.data)
    {
      if db == null {
        return None;
      }
      var ok, value := db.Get(key.key);
      hit := if ok then Some(value) else None;
    }

    method AddSerialized(key: KeyHash, energy: Double, forces: array<Double>)
      requires Valid()
      modifies if db == null then {} else {db}
      ensures Valid()
      ensures db != null ==>
                (db.data == old(db.data)[key.key := Packed(energy, forces[..])] || (!db.reliable && db.data == old(db.data)))
    {
      if db == null {
        return;
      }
      var buffer := new bv8[8 + 8 * forces.Length];
      CopyInto(buffer, 0, energy);
      assert buffer[..8] == energy;
      CopyInto(buffer, 8, Flat(forces[..]));
      assert buffer[..] == Packed(energy, forces[..]);
      db.Put(key.key, buffer[..]);
    }

    /** Copies a record out. The record must be long enough: the copy does not look at its length. */
    method DeserializeHit(hit: Bytes, forces: array<Double>) returns (energy: Double)
      requires HoldsForces(hit, forces.Length)
      modifies forces
      ensures energy == DoubleAt(hit, 0) && forces[..] == Forces(hit, forces.Length)
    {
      energy := DoubleAt(hit, 0);
      var k := 0;
      while k < forces.Length
        invariant 0 <= k <= forces.Length
        invariant forall i :: 0 <= i < k ==> forces[i] == Forces(hit, forces.Length)[i]
      {
        forces[k] := DoubleAt(hit, k + 1);
        k := k + 1;
      }
    }
  }
}
