/**
 Whole runs of cached evaluations: any number of potentials, any number of
 stores shared between them, caches attached and detached on the way, and store
 operations failing at will.
 */
module CacheRuns {
  import opened Options
  import opened PotentialCache
  import opened CachedPotential

  /** What one evaluation asks for: the key, what forceImpl would give, and for how many atoms. */
  datatype Request = Request(key: string, result: Outcome, nAtoms: nat)

  datatype Event =
    | Ask(pot: nat, request: Request, faults: Faults)
    | Attach(pot: nat, store: Option<nat>)

  /** The contents of the stores, which store each potential uses, and the number of counted force evaluations. */
  datatype World = World(stores: seq<Shelf>, wired: seq<Option<nat>>, calls: nat)
  {
    predicate Valid()
    {
      forall p :: 0 <= p < |wired| && wired[p].Some? ==> wired[p].value < |stores|
    }

    predicate Fits(e: Event)
    {
      && e.pot < |wired|
      && (e.Ask? ==> SizedFor(e.request.result, e.request.nAtoms))
      && (e.Attach? && e.store.Some? ==> e.store.value < |stores|)
    }

    function ShelfOf(pot: nat): Option<Shelf>
      requires Valid() && pot < |wired|
    {
      match wired[pot] case None => None case Some(s) => Some(stores[s])
    }

    function Answer(e: Event): Evaluation
      requires Valid() && Fits(e) && e.Ask?
    {
      EvaluateUnder(e.request.key, e.request.result, e.request.nAtoms, ShelfOf(e.pot), calls, e.faults)
    }

    function Next(e: Event): (w: World)
      requires Valid() && Fits(e)
      ensures w.Valid() && |w.wired| == |wired| && |w.stores| == |stores|
    {
      match e
      case Attach(p, s) => this.(wired := wired[p := s])
      case Ask(p, _, _) =>
        var a := Answer(e);
        World(if wired[p].Some? && a.shelf.Some? then stores[wired[p].value := a.shelf.value] else stores, wired, a.calls)
    }
  }

  predicate AllFit(w: World, events: seq<Event>)
  {
    w.Valid() && forall e :: e in events ==> w.Fits(e)
  }

  function After(w: World, events: seq<Event>): (r: World)
    requires AllFit(w, events)
    ensures r.Valid() && |r.wired| == |w.wired| && |r.stores| == |w.stores|
  {
    if events == [] then w else
      var before, e := events[..|events| - 1], events[|events| - 1];
      assert e in events && forall f :: f in before ==> f in events;
      After(w, before).Next(e)
  }

  /** What evaluation j of the run returns. */
  function AnswerAt(w: World, events: seq<Event>, j: nat): Outcome
    requires AllFit(w, events) && j < |events| && events[j].Ask?
  {
    assert events[j] in events;
    After(w, events[..j]).Answer(events[j]).outcome
  }

  lemma OneMore(w: World, events: seq<Event>, j: nat)
    requires AllFit(w, events) && j < |events|
    ensures AllFit(w, events[..j]) && AllFit(w, events[..j + 1])
    ensures After(w, events[..j]).Fits(events[j])
    ensures After(w, events[..j + 1]) == After(w, events[..j]).Next(events[j])
  {
    assert events[..j + 1][..j] == events[..j];
    assert events[j] in events;
  }

  /** Appending an event changes no earlier answer. */
  lemma Appended(w: World, events: seq<Event>, e: Event)
    requires AllFit(w, events) && w.Fits(e)
    ensures AllFit(w, events + [e]) && After(w, events).Fits(e)
    ensures After(w, events + [e]) == After(w, events).Next(e)
    ensures forall j :: 0 <= j < |events| && events[j].Ask? ==> AnswerAt(w, events + [e], j) == AnswerAt(w, events, j)
    ensures e.Ask? ==> AnswerAt(w, events + [e], |events|) == After(w, events).Answer(e).outcome
  {
    var more := events + [e];
    assert forall f :: f in more ==> f in events || f == e;
    assert more[..|events|] == events && more[..|events| + 1] == more;
    OneMore(w, more, |events|);
    forall j | 0 <= j < |events| && events[j].Ask?
      ensures AnswerAt(w, more, j) == AnswerAt(w, events, j)
    {
      assert more[..j] == events[..j];
    }
  }

  // ---------- What is counted ----------

  /** Evaluation j finds its key in the store of its potential, and the read does not fail. */
  ghost predicate IsAnsweredFromStore(w: World, events: seq<Event>, j: nat)
    requires AllFit(w, events) && j < |events| && events[j].Ask?
  {
    assert events[j] in events;
    var shelf := After(w, events[..j]).ShelfOf(events[j].pot);
    shelf.Some? && events[j].request.key in shelf.value && !events[j].faults.get
  }

  /** The evaluations that were neither answered from a store nor threw. */
  ghost function Computations(w: World, events: seq<Event>): set<nat>
    requires AllFit(w, events)
  {
    set j | 0 <= j < |events| && events[j].Ask? && !IsAnsweredFromStore(w, events, j) && events[j].request.result.Done?
  }

  /** In every run, with any stores or none and whatever fails, exactly these are counted. */
  lemma {:induction false} CallsAreComputations(w: World, events: seq<Event>)
    requires AllFit(w, events)
    ensures After(w, events).calls == w.calls + |Computations(w, events)|
  {
    if events == [] {
      assert Computations(w, events) == {};
    } else {
      var before, e := events[..|events| - 1], events[|events| - 1];
      assert events == before + [e] && e in events && forall f :: f in before ==> f in events;
      CallsAreComputations(w, before);
      CountedOnce(w, before, e);
    }
  }

  /** One event is counted if it is a computation, and is then one more of them. */
  lemma CountedOnce(w: World, events: seq<Event>, e: Event)
    requires AllFit(w, events) && AllFit(w, events + [e]) && w.Fits(e)
    ensures After(w, events + [e]).calls - After(w, events).calls == |Computations(w, events + [e])| - |Computations(w, events)|
  {
    Appended(w, events, e);
    ComputationsGrow(w, events, e);
    var counted := IsComputation(After(w, events), e);
    assert After(w, events).Next(e).calls == After(w, events).calls + if counted then 1 else 0;
  }

  /** In this world, e is computed and does not throw. */
  predicate IsComputation(now: World, e: Event)
    requires now.Valid() && now.Fits(e)
  {
    && e.Ask? && e.request.result.Done?
    && (var shelf := now.ShelfOf(e.pot); !(shelf.Some? && e.request.key in shelf.value && !e.faults.get))
  }

  lemma ComputationsGrow(w: World, events: seq<Event>, e: Event)
    requires AllFit(w, events) && AllFit(w, events + [e]) && After(w, events).Fits(e)
    ensures |Computations(w, events + [e])| == |Computations(w, events)| + if IsComputation(After(w, events), e) then 1 else 0
  {
    var n, more := |events|, events + [e];
    ComputationsOfOneMore(w, events, e);
    assert more[n] == e && more[..n] == events;
    assert n in Computations(w, more) <==> IsComputation(After(w, events), e);
    var before, after := Computations(w, events), Computations(w, more);
    assert after == before + if n in after then {n} else {};
    assert n !in before;
  }

  lemma ComputationsOfOneMore(w: World, events: seq<Event>, e: Event)
    requires AllFit(w, events) && AllFit(w, events + [e])
    ensures forall j :: j in Computations(w, events + [e]) && j < |events| <==> j in Computations(w, events)
  {
    var more := events + [e];
    forall j: nat | j < |events| && events[j].Ask?
      ensures IsAnsweredFromStore(w, more, j) <==> IsAnsweredFromStore(w, events, j)
    {
      assert more[..j] == events[..j];
    }
  }

  // ---------- Transparency ----------

  /** Evaluations with the same key want the same result. */
  ghost predicate Consistent(events: seq<Event>)
  {
    forall e, f :: e in events && f in events && e.Ask? && f.Ask? && e.request.key == f.request.key ==>
      e.request.result == f.request.result
  }

  /** Every record that a request could hit reads back as the wanted result. */
  ghost predicate Sound(w: World, events: seq<Event>)
  {
    forall e, s :: e in events && e.Ask? && 0 <= s < |w.stores| && e.request.key in w.stores[s] ==>
      ReadBack(w.stores[s][e.request.key], e.request.nAtoms) == e.request.result
  }

  lemma StoredReadsBack(o: Outcome, nAtoms: nat)
    requires o.Done? && SizedFor(o, nAtoms)
    ensures ReadBack(Packed(o.energy, o.forces), nAtoms) == o
  {
    PackedRoundTrip(o.energy, o.forces, 3 * nAtoms);
    assert o.forces[..3 * nAtoms] == o.forces;
  }

  /** One event keeps every store sound, whatever fails. */
  lemma NextKeepsSound(w: World, events: seq<Event>, e: Event)
    requires AllFit(w, events) && e in events && Consistent(events) && Sound(w, events)
    ensures Sound(w.Next(e), events)
  {
    if e.Ask? && e.request.result.Done? {
      var o := e.request.result;
      forall f | f in events && f.Ask? && f.request.key == e.request.key
        ensures ReadBack(Packed(o.energy, o.forces), f.request.nAtoms) == f.request.result
      {
        StoredReadsBack(o, f.request.nAtoms);
      }
    }
  }

  lemma {:induction false} StaysSound(w: World, events: seq<Event>, j: nat)
    requires AllFit(w, events) && Consistent(events) && Sound(w, events) && j <= |events|
    ensures AllFit(w, events[..j]) && Sound(After(w, events[..j]), events)
  {
    if 0 < j {
      StaysSound(w, events, j - 1);
      OneMore(w, events, j - 1);
      var before := After(w, events[..j - 1]);
      assert AllFit(before, events);
      NextKeepsSound(before, events, events[j - 1]);
    }
  }

  /** Every evaluation of every run returns what forceImpl would, and the stores stay sound. */
  lemma Transparency(w: World, events: seq<Event>)
    requires AllFit(w, events) && Consistent(events) && Sound(w, events)
    ensures forall j :: 0 <= j < |events| && events[j].Ask? ==> AnswerAt(w, events, j) == events[j].request.result
    ensures Sound(After(w, events), events)
  {
    forall j | 0 <= j < |events| && events[j].Ask?
      ensures AnswerAt(w, events, j) == events[j].request.result
    {
      StaysSound(w, events, j);
      OneMore(w, events, j);
      assert events[j] in events;
    }
    StaysSound(w, events, |events|);
    assert events[..|events|] == events;
  }

  // ---------- Runs of real potentials ----------

  /** A way of making keys of a type tag and a configuration. The code's is KeyFunction(hash); any other is possible below. */
  type KeyFn = (Word, Config) -> string

  /** The key that operator() makes. */
  function KeyFunction(hash: Hash): KeyFn
  {
    (kind: Word, cfg: Config) => KeyFor(hash, kind, cfg)
  }

  /** An evaluation of a configuration by one of several potentials, or a call of set_cache. */
  datatype Act =
    | Call(pot: nat, cfg: Config, faults: Faults)
    | SetCache(pot: nat, store: Option<nat>)

  ghost function EventOf(key: KeyFn, pots: seq<Pot>, a: Act): Event
    requires a.pot < |pots|
  {
    match a
    case Call(p, cfg, f) => Ask(p, Request(key(pots[p].kind, cfg), pots[p].force(cfg), cfg.nAtoms), f)
    case SetCache(p, s) => Attach(p, s)
  }

  ghost predicate ActsFit(w: World, pots: seq<Pot>, acts: seq<Act>)
  {
    && w.Valid() && |pots| == |w.wired| && (forall p :: 0 <= p < |pots| ==> pots[p].Valid())
    && forall a :: a in acts ==> a.pot < |pots| && (a.SetCache? && a.store.Some? ==> a.store.value < |w.stores|)
  }

  ghost function Events(key: KeyFn, w: World, pots: seq<Pot>, acts: seq<Act>): (events: seq<Event>)
    requires ActsFit(w, pots, acts)
    ensures AllFit(w, events)
  {
    seq(|acts|, j requires 0 <= j < |acts| => assert acts[j] in acts; EventOf(key, pots, acts[j]))
  }

  /** No two evaluations of the run with different type tags or configurations have the same key. */
  predicate CollisionFree(key: KeyFn, kinds: seq<Word>, acts: seq<Act>)
    requires forall a :: a in acts ==> a.pot < |kinds|
  {
    forall a, b :: a in acts && b in acts && a.Call? && b.Call? ==>
      (key(kinds[a.pot], a.cfg) == key(kinds[b.pot], b.cfg) ==> kinds[a.pot] == kinds[b.pot] && a.cfg == b.cfg)
  }

  /** The type tags of the potentials. */
  function Kinds(pots: seq<Pot>): (kinds: seq<Word>)
    ensures |kinds| == |pots|
  {
    seq(|pots|, p requires 0 <= p < |pots| => pots[p].kind)
  }

  /** Potentials with the same type tag compute the same function. */
  ghost predicate KindsAgree(pots: seq<Pot>)
  {
    forall p, q :: 0 <= p < |pots| && 0 <= q < |pots| && pots[p].kind == pots[q].kind ==>
      forall cfg :: pots[p].force(cfg) == pots[q].force(cfg)
  }

  /**
   With collision-free keys, one function for each type tag, and stores that start sound, every call returns
   exactly the energy and forces that forceImpl gives, or throws exactly when forceImpl throws.
   */
  lemma CacheIsTransparent(key: KeyFn, w: World, pots: seq<Pot>, acts: seq<Act>)
    requires ActsFit(w, pots, acts) && CollisionFree(key, Kinds(pots), acts) && KindsAgree(pots)
    requires Sound(w, Events(key, w, pots, acts))
    ensures forall j :: 0 <= j < |acts| && acts[j].Call? ==>
              AnswerAt(w, Events(key, w, pots, acts), j) == pots[acts[j].pot].force(acts[j].cfg)
  {
    var events := Events(key, w, pots, acts);
    CollisionFreeIsConsistent(key, w, pots, acts);
    Transparency(w, events);
    forall j | 0 <= j < |acts| && acts[j].Call?
      ensures AnswerAt(w, events, j) == pots[acts[j].pot].force(acts[j].cfg)
    {
      assert events[j] == EventOf(key, pots, acts[j]);
    }
  }

  lemma CollisionFreeIsConsistent(key: KeyFn, w: World, pots: seq<Pot>, acts: seq<Act>)
    requires ActsFit(w, pots, acts) && CollisionFree(key, Kinds(pots), acts) && KindsAgree(pots)
    ensures Consistent(Events(key, w, pots, acts))
  {
    var events := Events(key, w, pots, acts);
    forall e, f | e in events && f in events && e.Ask? && f.Ask? && e.request.key == f.request.key
      ensures e.request.result == f.request.result
    {
      var i :| 0 <= i < |acts| && events[i] == e;
      var j :| 0 <= j < |acts| && events[j] == f;
      assert acts[i] in acts && acts[j] in acts;
    }
  }

  // ---------- A reliable store that starts empty ----------

  /** Only evaluations, all through the one store, which never fails. */
  ghost predicate OneReliableStore(w: World, events: seq<Event>)
  {
    && |w.stores| == 1 && (forall p :: 0 <= p < |w.wired| ==> w.wired[p] == Some(0))
    && AllFit(w, events)
    && forall e :: e in events ==> e.Ask? && e.faults == NO_FAULTS
  }

  /** The keys of the evaluations that do not throw. */
  ghost function DoneKeys(events: seq<Event>): set<string>
  {
    set e | e in events && e.Ask? && e.request.result.Done? :: e.request.key
  }

  lemma NextInOneStore(w: World, e: Event)
    requires OneReliableStore(w, [e])
    ensures var key, o, next := e.request.key, e.request.result, w.Next(e);
            && next.wired == w.wired
            && if key in w.stores[0] || !o.Done? then next == w
               else next.stores == [w.stores[0][key := Packed(o.energy, o.forces)]] && next.calls == w.calls + 1
  {
    assert e in [e];
    assert w.Fits(e) && w.ShelfOf(e.pot) == Some(w.stores[0]);
    assert w.stores[0 := w.stores[0]] == w.stores;
  }

  /** From w to after, the store gained the keys in done, and each new one cost one force evaluation. */
  ghost predicate Worked(w: World, after: World, done: set<string>)
  {
    && |w.stores| == |after.stores| == 1 && after.wired == w.wired
    && after.stores[0].Keys == w.stores[0].Keys + done
    && after.calls - w.calls == |after.stores[0]| - |w.stores[0]|
  }

  /** Each key that is wanted and not stored yet costs one force evaluation, once. */
  lemma {:induction false} WorkIsNewKeys(w: World, events: seq<Event>)
    requires OneReliableStore(w, events)
    ensures Worked(w, After(w, events), DoneKeys(events))
  {
    if events != [] {
      var before, e := events[..|events| - 1], events[|events| - 1];
      assert events == before + [e];
      assert e in events && forall f :: f in before ==> f in events;
      WorkIsNewKeys(w, before);
      DoneKeysOfOneMore(before, e);
      assert OneReliableStore(After(w, before), [e]) by { assert e in [e]; }
      WorkOfOneMore(w, After(w, before), e, DoneKeys(before));
    }
  }

  lemma WorkOfOneMore(w: World, before: World, e: Event, done: set<string>)
    requires OneReliableStore(before, [e]) && Worked(w, before, done) && before.Fits(e)
    ensures Worked(w, before.Next(e), done + if e.request.result.Done? then {e.request.key} else {})
  {
    NextInOneStore(before, e);
    var o := e.request.result;
    if e.request.key !in before.stores[0] && o.Done? {
      SizeOfUpdate(before.stores[0], e.request.key, Packed(o.energy, o.forces));
    }
  }

  lemma SizeOfUpdate(shelf: Shelf, key: string, record: Bytes)
    requires key !in shelf
    ensures |shelf[key := record]| == |shelf| + 1 && shelf[key := record].Keys == shelf.Keys + {key}
  {
    assert shelf[key := record].Keys == shelf.Keys + {key};
    assert |shelf[key := record].Keys| == |shelf.Keys| + 1;
  }

  lemma DoneKeysOfOneMore(before: seq<Event>, e: Event)
    requires e.Ask?
    ensures DoneKeys(before + [e]) == DoneKeys(before) + (if e.request.result.Done? then {e.request.key} else {})
  {
  }

  /** The number of force evaluations is the number of distinct keys among the evaluations that do not throw. */
  lemma WorkIsDistinctKeys(w: World, events: seq<Event>)
    requires OneReliableStore(w, events) && w.stores[0] == map[]
    ensures After(w, events).calls - w.calls == |DoneKeys(events)|
  {
    WorkIsNewKeys(w, events);
    assert After(w, events).stores[0].Keys == DoneKeys(events);
  }

  /** The distinct pairs of type tag and configuration that are evaluated without a throw. */
  ghost function DistinctConfigs(pots: seq<Pot>, acts: seq<Act>): set<(Word, Config)>
    requires forall a :: a in acts ==> a.pot < |pots|
  {
    set a | a in acts && a.Call? && pots[a.pot].force(a.cfg).Done? :: (pots[a.pot].kind, a.cfg)
  }

  lemma {:induction false} SameSize<A, B>(s: set<A>, t: set<B>, f: A -> B)
    requires forall x :: x in s ==> f(x) in t
    requires forall y :: y in t ==> exists x :: x in s && f(x) == y
    requires forall x, y :: x in s && y in s && f(x) == f(y) ==> x == y
    ensures |s| == |t|
    decreases s
  {
    if s == {} {
      assert t == {};
    } else {
      var x :| x in s;
      forall y | y in t - {f(x)} ensures exists z :: z in s - {x} && f(z) == y { }
      SameSize(s - {x}, t - {f(x)}, f);
    }
  }

  /** With collision-free keys forceImpl is counted once for each distinct configuration of each type. */
  lemma WorkIsDistinctConfigs(key: KeyFn, w: World, pots: seq<Pot>, acts: seq<Act>)
    requires ActsFit(w, pots, acts) && CollisionFree(key, Kinds(pots), acts)
    requires OneReliableStore(w, Events(key, w, pots, acts)) && w.stores[0] == map[]
    ensures After(w, Events(key, w, pots, acts)).calls - w.calls == |DistinctConfigs(pots, acts)|
  {
    var events := Events(key, w, pots, acts);
    WorkIsDistinctKeys(w, events);
    var keyOf := (q: (Word, Config)) => key(q.0, q.1);
    forall y | y in DoneKeys(events)
      ensures exists q :: q in DistinctConfigs(pots, acts) && keyOf(q) == y
    {
      var q := ConfigOfKey(key, w, pots, acts, y);
      assert keyOf(q) == y;
    }
    forall q | q in DistinctConfigs(pots, acts)
      ensures keyOf(q) in DoneKeys(events)
    {
      KeyOfConfig(key, w, pots, acts, q);
    }
    forall q, r | q in DistinctConfigs(pots, acts) && r in DistinctConfigs(pots, acts) && keyOf(q) == keyOf(r)
      ensures q == r
    {
      KeysDiffer(key, w, pots, acts, q, r);
    }
    SameSize(DistinctConfigs(pots, acts), DoneKeys(events), keyOf);
  }

  lemma KeysDiffer(key: KeyFn, w: World, pots: seq<Pot>, acts: seq<Act>, q: (Word, Config), r: (Word, Config))
    requires ActsFit(w, pots, acts) && CollisionFree(key, Kinds(pots), acts)
    requires q in DistinctConfigs(pots, acts) && r in DistinctConfigs(pots, acts) && key(q.0, q.1) == key(r.0, r.1)
    ensures q == r
  {
    var a :| a in acts && a.Call? && (pots[a.pot].kind, a.cfg) == q;
    var b :| b in acts && b.Call? && (pots[b.pot].kind, b.cfg) == r;
    assert Kinds(pots)[a.pot] == q.0 && Kinds(pots)[b.pot] == r.0;
  }

  lemma ConfigOfKey(key: KeyFn, w: World, pots: seq<Pot>, acts: seq<Act>, y: string) returns (q: (Word, Config))
    requires ActsFit(w, pots, acts) && y in DoneKeys(Events(key, w, pots, acts))
    ensures q in DistinctConfigs(pots, acts) && key(q.0, q.1) == y
  {
    var events := Events(key, w, pots, acts);
    var e :| e in events && e.Ask? && e.request.result.Done? && e.request.key == y;
    var j :| 0 <= j < |acts| && events[j] == e;
    assert acts[j] in acts;
    q := (pots[acts[j].pot].kind, acts[j].cfg);
  }

  lemma KeyOfConfig(key: KeyFn, w: World, pots: seq<Pot>, acts: seq<Act>, q: (Word, Config))
    requires ActsFit(w, pots, acts) && q in DistinctConfigs(pots, acts)
    ensures key(q.0, q.1) in DoneKeys(Events(key, w, pots, acts))
  {
    var events := Events(key, w, pots, acts);
    var a :| a in acts && a.Call? && pots[a.pot].force(a.cfg).Done? && (pots[a.pot].kind, a.cfg) == q;
    var j :| 0 <= j < |acts| && acts[j] == a;
    assert events[j] in events;
  }

  // ---------- Exactly when a reliable store is transparent ----------

  /** Evaluation i is the first with its key that does not throw. */
  ghost predicate IsFirst(events: seq<Event>, i: int)
  {
    && 0 <= i < |events| && events[i].Ask? && events[i].request.result.Done?
    && forall k :: 0 <= k < i && events[k].Ask? && events[k].request.key == events[i].request.key ==> !events[k].request.result.Done?
  }

  /** Every evaluation wants what the first one with its key left in the store. */
  ghost predicate FirstComeServesAll(events: seq<Event>)
  {
    forall i, j :: IsFirst(events, i) && i < j < |events| && events[j].Ask? && events[j].request.key == events[i].request.key ==>
      var o := events[i].request.result;
      ReadBack(Packed(o.energy, o.forces), events[j].request.nAtoms) == events[j].request.result
  }

  ghost predicate HoldsFirsts(events: seq<Event>, shelf: Shelf, n: nat)
    requires n <= |events|
  {
    && (forall i :: 0 <= i < n && IsFirst(events, i) ==>
          var o := events[i].request.result;
          events[i].request.key in shelf && shelf[events[i].request.key] == Packed(o.energy, o.forces))
    && (forall key :: key in shelf ==> exists i :: 0 <= i < n && IsFirst(events, i) && events[i].request.key == key)
  }

  lemma {:induction false} StoreHoldsFirsts(w: World, events: seq<Event>, n: nat)
    requires OneReliableStore(w, events) && w.stores[0] == map[] && n <= |events|
    ensures AllFit(w, events[..n]) && OneReliableStore(After(w, events[..n]), events)
    ensures HoldsFirsts(events, After(w, events[..n]).stores[0], n)
  {
    if 0 < n {
      StoreHoldsFirsts(w, events, n - 1);
      OneMore(w, events, n - 1);
      var before, e := After(w, events[..n - 1]), events[n - 1];
      assert e in events && OneReliableStore(before, [e]);
      NextInOneStore(before, e);
      OneMoreFirst(events, before.stores[0], before.Next(e).stores[0], n - 1);
    }
  }

  lemma OneMoreFirst(events: seq<Event>, shelf: Shelf, next: Shelf, n: nat)
    requires n < |events| && HoldsFirsts(events, shelf, n) && events[n].Ask?
    requires var key, o := events[n].request.key, events[n].request.result;
             next == if key in shelf || !o.Done? then shelf else shelf[key := Packed(o.energy, o.forces)]
    ensures HoldsFirsts(events, next, n + 1)
  {
    FirstOrKnown(events, shelf, n);
    var key := events[n].request.key;
    forall i | 0 <= i < n + 1 && IsFirst(events, i)
      ensures events[i].request.key in next
      ensures var o := events[i].request.result; next[events[i].request.key] == Packed(o.energy, o.forces)
    {
      if i < n && events[i].request.key == key { assert key in shelf; }
    }
    forall k | k in next
      ensures exists i :: 0 <= i < n + 1 && IsFirst(events, i) && events[i].request.key == k
    {
      if k in shelf {
        var i :| 0 <= i < n && IsFirst(events, i) && events[i].request.key == k;
      } else {
        assert IsFirst(events, n);
      }
    }
  }

  /** Evaluation n finds its key in the store exactly when there is an earlier first one with that key. */
  lemma FirstOrKnown(events: seq<Event>, shelf: Shelf, n: nat)
    requires n < |events| && HoldsFirsts(events, shelf, n) && events[n].Ask?
    ensures events[n].request.result.Done? ==> (IsFirst(events, n) <==> events[n].request.key !in shelf)
  {
    if events[n].request.result.Done? && !IsFirst(events, n) {
      var m :| 0 <= m < n && events[m].Ask? && events[m].request.key == events[n].request.key && events[m].request.result.Done?;
      var i := FirstUpTo(events, m);
      assert events[i].request.key in shelf;
    }
  }

  lemma {:induction false} FirstUpTo(events: seq<Event>, k: nat) returns (i: nat)
    requires k < |events| && events[k].Ask? && events[k].request.result.Done?
    ensures i <= k && IsFirst(events, i) && events[i].request.key == events[k].request.key
    decreases k
  {
    if IsFirst(events, k) {
      i := k;
    } else {
      var m :| 0 <= m < k && events[m].Ask? && events[m].request.key == events[k].request.key && events[m].request.result.Done?;
      i := FirstUpTo(events, m);
    }
  }

  lemma AnswerOf(w: World, events: seq<Event>, j: nat)
    requires OneReliableStore(w, events) && w.stores[0] == map[] && j < |events|
    ensures (exists i :: 0 <= i < j && IsFirst(events, i) && events[i].request.key == events[j].request.key) ||
            AnswerAt(w, events, j) == events[j].request.result
    ensures forall i :: 0 <= i < j && IsFirst(events, i) && events[i].request.key == events[j].request.key ==>
              var o := events[i].request.result;
              AnswerAt(w, events, j) == ReadBack(Packed(o.energy, o.forces), events[j].request.nAtoms)
  {
    assert events[j] in events;
    StoreHoldsFirsts(w, events, j);
    var before := After(w, events[..j]);
    assert before.ShelfOf(events[j].pot) == Some(before.stores[0]);
  }

  /** From an empty reliable store, every evaluation returns its own result if and only if the first result under each key serves all. */
  lemma TransparentIffFirstComeServesAll(w: World, events: seq<Event>)
    requires OneReliableStore(w, events) && w.stores[0] == map[]
    ensures (forall j :: 0 <= j < |events| ==> AnswerAt(w, events, j) == events[j].request.result) <==> FirstComeServesAll(events)
  {
    forall j | 0 <= j < |events|
      ensures AnswerAt(w, events, j) == events[j].request.result <==>
              forall i :: 0 <= i < j && IsFirst(events, i) && events[i].request.key == events[j].request.key ==>
                var o := events[i].request.result;
                ReadBack(Packed(o.energy, o.forces), events[j].request.nAtoms) == events[j].request.result
    {
      AnswerOf(w, events, j);
    }
  }

  /** One reliable store, still empty, attached to each of n potentials. */
  function FreshWorld(n: nat): World
  {
    World([map[]], seq(n, _ => Some(0)), 0)
  }

  // ---------- Which keys make every potential safe ----------

  /** Only evaluations, by potentials that exist, and no faults. */
  predicate OnlyCalls(n: nat, acts: seq<Act>)
  {
    forall a :: a in acts ==> a.Call? && a.pot < n && a.faults == NO_FAULTS
  }

  /** Potentials with the given type tags that can be asked at all and agree for each tag. */
  ghost predicate Realizes(pots: seq<Pot>, kinds: seq<Word>)
  {
    Kinds(pots) == kinds && KindsAgree(pots) && forall p :: 0 <= p < |pots| ==> pots[p].Valid()
  }

  /** Every call of the run returns what forceImpl gives. */
  ghost predicate RunIsTransparent(key: KeyFn, pots: seq<Pot>, acts: seq<Act>)
    requires OnlyCalls(|pots|, acts) && forall p :: 0 <= p < |pots| ==> pots[p].Valid()
  {
    forall j :: 0 <= j < |acts| ==>
      AnswerAt(FreshWorld(|pots|), Events(key, FreshWorld(|pots|), pots, acts), j) == pots[acts[j].pot].force(acts[j].cfg)
  }

  const ONE: Double := [0, 0, 0, 0, 0, 0, 240, 63]

  /** A potential that tells one query from all others by its energy. */
  function Marking(kind: Word, query: (Word, Config)): Pot
  {
    Pot(kind, (cfg: Config) => Done(if (kind, cfg) == query then ONE else ZERO, seq(3 * cfg.nAtoms, _ => ZERO)))
  }

  function AllMarking(kinds: seq<Word>, query: (Word, Config)): (pots: seq<Pot>)
    ensures |pots| == |kinds|
  {
    seq(|kinds|, p requires 0 <= p < |kinds| => Marking(kinds[p], query))
  }

  lemma MarkingRealizes(kinds: seq<Word>, query: (Word, Config))
    ensures Realizes(AllMarking(kinds, query), kinds)
  {
    var pots := AllMarking(kinds, query);
    forall p | 0 <= p < |pots|
      ensures pots[p].Valid()
    {
      forall cfg: Config ensures SizedFor(pots[p].force(cfg), cfg.nAtoms) { }
    }
    assert Kinds(pots) == kinds;
  }

  /** Two different queries with one key: the marking potentials get a wrong answer. */
  lemma CollisionShows(key: KeyFn, kinds: seq<Word>, acts: seq<Act>, i: nat, j: nat)
    requires OnlyCalls(|kinds|, acts) && i < j < |acts|
    requires acts[i] in acts && acts[j] in acts
    requires key(kinds[acts[i].pot], acts[i].cfg) == key(kinds[acts[j].pot], acts[j].cfg)
    requires (kinds[acts[i].pot], acts[i].cfg) != (kinds[acts[j].pot], acts[j].cfg)
    ensures var pots := AllMarking(kinds, (kinds[acts[i].pot], acts[i].cfg));
            Realizes(pots, kinds) && !RunIsTransparent(key, pots, acts)
  {
    var query := (kinds[acts[i].pot], acts[i].cfg);
    var pots := AllMarking(kinds, query);
    MarkingRealizes(kinds, query);
    TransparentIffServed(key, pots, acts);
    MarkedRequest(key, kinds, query, acts, i);
    MarkedRequest(key, kinds, query, acts, j);
    TwoResultsUnderOneKey(Events(key, FreshWorld(|pots|), pots, acts), i, j);
  }

  lemma TransparentIffServed(key: KeyFn, pots: seq<Pot>, acts: seq<Act>)
    requires OnlyCalls(|pots|, acts) && forall p :: 0 <= p < |pots| ==> pots[p].Valid()
    ensures ActsFit(FreshWorld(|pots|), pots, acts)
    ensures RunIsTransparent(key, pots, acts) <==> FirstComeServesAll(Events(key, FreshWorld(|pots|), pots, acts))
  {
    var w := FreshWorld(|pots|);
    var events := Events(key, w, pots, acts);
    CallsAreReliable(key, pots, acts);
    TransparentIffFirstComeServesAll(w, events);
    forall k | 0 <= k < |acts|
      ensures events[k].request.result == pots[acts[k].pot].force(acts[k].cfg)
    {
      assert acts[k] in acts && events[k] == EventOf(key, pots, acts[k]);
    }
  }

  /** What the marking potentials are asked for and would give. */
  lemma MarkedRequest(key: KeyFn, kinds: seq<Word>, query: (Word, Config), acts: seq<Act>, k: nat)
    requires OnlyCalls(|kinds|, acts) && k < |acts| && acts[k] in acts
    requires ActsFit(FreshWorld(|kinds|), AllMarking(kinds, query), acts)
    ensures var pots := AllMarking(kinds, query);
            var e := Events(key, FreshWorld(|kinds|), pots, acts)[k];
            && e.Ask? && e.request.key == key(kinds[acts[k].pot], acts[k].cfg)
            && e.request.result == pots[acts[k].pot].force(acts[k].cfg) && e.request.result.Done?
            && (e.request.result.energy == ONE <==> (kinds[acts[k].pot], acts[k].cfg) == query)
  {
  }

  /** The first result under a key cannot serve two with different energies. */
  lemma TwoResultsUnderOneKey(events: seq<Event>, i: nat, j: nat)
    requires i < j < |events| && events[i].Ask? && events[j].Ask? && events[i].request.key == events[j].request.key
    requires events[i].request.result.Done? && events[j].request.result.Done?
    requires events[i].request.result.energy != events[j].request.result.energy
    ensures !FirstComeServesAll(events)
  {
    var f := FirstUpTo(events, i);
    if FirstComeServesAll(events) {
      MarkTravels(events, f, i);
      MarkTravels(events, f, j);
      assert false;
    }
  }

  /** Whoever is served by the first one has its energy. */
  lemma MarkTravels(events: seq<Event>, f: nat, k: nat)
    requires FirstComeServesAll(events) && IsFirst(events, f) && f <= k < |events|
    requires events[k].Ask? && events[k].request.result.Done? && events[k].request.key == events[f].request.key
    ensures events[k].request.result.energy == events[f].request.result.energy
  {
    var o := events[f].request.result;
    PackedRoundTrip(o.energy, o.forces, 3 * events[k].request.nAtoms);
  }

  lemma CallsAreReliable(key: KeyFn, pots: seq<Pot>, acts: seq<Act>)
    requires OnlyCalls(|pots|, acts) && forall p :: 0 <= p < |pots| ==> pots[p].Valid()
    ensures ActsFit(FreshWorld(|pots|), pots, acts)
    ensures OneReliableStore(FreshWorld(|pots|), Events(key, FreshWorld(|pots|), pots, acts))
    ensures FreshWorld(|pots|).stores[0] == map[]
  {
    var events := Events(key, FreshWorld(|pots|), pots, acts);
    forall e | e in events
      ensures e.Ask? && e.faults == NO_FAULTS
    {
      var j :| 0 <= j < |acts| && events[j] == e;
      assert acts[j] in acts;
    }
  }

  /**
   For the type tags and configurations of a run, known before any call: whatever the potentials with these tags compute, every
   call through one empty reliable store gives exactly what forceImpl gives, if and only if no two of the
   queries share a key.
   */
  lemma SafeForAllPotentialsIffCollisionFree(key: KeyFn, kinds: seq<Word>, acts: seq<Act>)
    requires OnlyCalls(|kinds|, acts)
    ensures (forall pots :: Realizes(pots, kinds) ==> RunIsTransparent(key, pots, acts)) <==> CollisionFree(key, kinds, acts)
  {
    if CollisionFree(key, kinds, acts) {
      forall pots | Realizes(pots, kinds)
        ensures RunIsTransparent(key, pots, acts)
      {
        SafeIfCollisionFree(key, pots, acts);
      }
    } else {
      SomeCollisionShows(key, kinds, acts);
    }
  }

  lemma SafeIfCollisionFree(key: KeyFn, pots: seq<Pot>, acts: seq<Act>)
    requires OnlyCalls(|pots|, acts) && Realizes(pots, Kinds(pots)) && CollisionFree(key, Kinds(pots), acts)
    ensures RunIsTransparent(key, pots, acts)
  {
    CallsAreReliable(key, pots, acts);
    CacheIsTransparent(key, FreshWorld(|pots|), pots, acts);
  }

  lemma SomeCollisionShows(key: KeyFn, kinds: seq<Word>, acts: seq<Act>)
    requires OnlyCalls(|kinds|, acts) && !CollisionFree(key, kinds, acts)
    ensures exists pots :: Realizes(pots, kinds) && !RunIsTransparent(key, pots, acts)
  {
    var a, b :| a in acts && b in acts && key(kinds[a.pot], a.cfg) == key(kinds[b.pot], b.cfg) &&
                (kinds[a.pot], a.cfg) != (kinds[b.pot], b.cfg);
    var i :| 0 <= i < |acts| && acts[i] == a;
    var j :| 0 <= j < |acts| && acts[j] == b;
    if i < j {
      CollisionShows(key, kinds, acts, i, j);
    } else {
      CollisionShows(key, kinds, acts, j, i);
    }
  }

  // ---------- A wrong answer for every hash function ----------

  /** Three atoms, and then the same buffers exchanged, asked of one potential with a fresh reliable store. */
  ghost function ExchangedRun(hash: Hash, pot: Pot, cfg: Config): seq<Event>
    requires cfg.nAtoms == 3
  {
    [EventOf(KeyFunction(hash), [pot], Call(0, cfg, NO_FAULTS)), EventOf(KeyFunction(hash), [pot], Call(0, Exchanged(cfg), NO_FAULTS))]
  }

  /** Whatever the hash function, the second call of that run returns the result of the first configuration. */
  lemma ExchangeAnswersFirst(hash: Hash, pot: Pot, cfg: Config)
    requires pot.Valid() && cfg.nAtoms == 3 && pot.force(cfg).Done?
    ensures AllFit(FreshWorld(1), ExchangedRun(hash, pot, cfg))
    ensures AnswerAt(FreshWorld(1), ExchangedRun(hash, pot, cfg), 1) == pot.force(cfg)
  {
    var w, events := FreshWorld(1), ExchangedRun(hash, pot, cfg);
    assert SizedFor(pot.force(cfg), 3) && SizedFor(pot.force(Exchanged(cfg)), 3);
    ExchangeCollides(hash, pot.kind, cfg);
    assert IsFirst(events, 0);
    AnswerOf(w, events, 1);
    StoredReadsBack(pot.force(cfg), 3);
  }

  const ONES: seq<Double> := [ONE, ONE, ONE, ONE, ONE, ONE, ONE, ONE, ONE]
  const NUMBERS: seq<Int32> := [[1, 0, 0, 0], [1, 0, 0, 0], [1, 0, 0, 0]]

  /** Three atoms with all coordinates one in a cell of zeros. */
  const THREE_ATOMS: Config := Input(3, ONES, NUMBERS, NO_BOX)

  /** A potential whose energy is the first coordinate. */
  function FirstCoordinate(): Pot
  {
    Pot(ZERO, (cfg: Config) => Done(if cfg.nAtoms == 0 then ZERO else cfg.pos[0], seq(3 * cfg.nAtoms, _ => ZERO)))
  }

  /** For every hash function: a valid potential, three atoms, and a second call whose answer is not its own. */
  lemma ExchangeAnswersWrongly(hash: Hash)
    ensures FirstCoordinate().Valid()
    ensures AllFit(FreshWorld(1), ExchangedRun(hash, FirstCoordinate(), THREE_ATOMS))
    ensures AnswerAt(FreshWorld(1), ExchangedRun(hash, FirstCoordinate(), THREE_ATOMS), 1) !=
            FirstCoordinate().force(Exchanged(THREE_ATOMS))
  {
    var pot := FirstCoordinate();
    forall cfg: Config ensures SizedFor(pot.force(cfg), cfg.nAtoms) { }
    ExchangeAnswersFirst(hash, pot, THREE_ATOMS);
    assert pot.force(THREE_ATOMS).energy == ONE && pot.force(Exchanged(THREE_ATOMS)).energy == ZERO;
  }
}
