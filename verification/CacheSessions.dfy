/**
 Runs of the real objects: several potentials of one class, the caches they are
 pointed at, and the stores behind the caches, following the worlds of CacheRuns.
 */
module CacheSessions {
  import opened Options
  import opened PotentialCache
  import opened CachedPotential
  import opened CacheRuns
  import Registry

  /** A call of operator() with the caller's arguments, or a call of set_cache with one of the caches or null. */
  datatype Move =
    | Query(pot: nat, rows: nat, positions: seq<Double>, atmtypes: seq<Int32>, box: seq<seq<Double>>)
    | Use(pot: nat, cache: Option<nat>)
  {
    /** The arguments have the sizes that operator() relies on. */
    predicate Shaped()
    {
      Query? ==> |positions| == 3 * rows && rows <= |atmtypes| && |box| == 3 && forall i :: 0 <= i < 3 ==> |box[i]| == 3
    }

    predicate Fits(pots: nat, caches: nat)
    {
      Shaped() && pot < pots && (Use? && cache.Some? ==> cache.value < caches)
    }
  }

  /** What a move is in a run, when the stores fail in the way f says. */
  function ActOf(m: Move, f: Faults): Act
    requires m.Shaped()
  {
    match m
    case Query(p, rows, positions, atmtypes, box) => Act.Call(p, ConfigOf(rows, positions, atmtypes, box), f)
    case Use(p, c) => Act.SetCache(p, c)
  }

  // ---------- Runs of moves ----------

  ghost predicate MovesFit(w: World, pots: seq<Pot>, moves: seq<Move>)
  {
    && w.Valid() && |pots| == |w.wired| && (forall p :: 0 <= p < |pots| ==> pots[p].Valid())
    && forall j :: 0 <= j < |moves| ==> moves[j].Fits(|pots|, |w.stores|)
  }

  ghost function ActsOf(w: World, pots: seq<Pot>, moves: seq<Move>, faults: seq<Faults>): (acts: seq<Act>)
    requires MovesFit(w, pots, moves) && |faults| == |moves|
    ensures ActsFit(w, pots, acts) && |acts| == |moves|
  {
    seq(|moves|, j requires 0 <= j < |moves| => ActOf(moves[j], faults[j]))
  }

  /** The run as it was planned, without faults. */
  ghost function Plan(w: World, pots: seq<Pot>, moves: seq<Move>): (acts: seq<Act>)
    requires MovesFit(w, pots, moves)
    ensures ActsFit(w, pots, acts) && |acts| == |moves|
  {
    ActsOf(w, pots, moves, seq(|moves|, _ => NO_FAULTS))
  }

  ghost function EventsOf(hash: Hash, w: World, pots: seq<Pot>, moves: seq<Move>, faults: seq<Faults>): (events: seq<Event>)
    requires MovesFit(w, pots, moves) && |faults| == |moves|
    ensures AllFit(w, events) && |events| == |moves|
    ensures forall j :: 0 <= j < |moves| ==> events[j] == EventOf(KeyFunction(hash), pots, ActOf(moves[j], faults[j]))
  {
    Events(KeyFunction(hash), w, pots, ActsOf(w, pots, moves, faults))
  }

  /** The answers that the worlds give to these moves under these faults. */
  ghost predicate IsRun(hash: Hash, w: World, pots: seq<Pot>, moves: seq<Move>, faults: seq<Faults>, answers: seq<Outcome>)
  {
    && |faults| == |answers| == |moves| && MovesFit(w, pots, moves)
    && forall j :: 0 <= j < |moves| && moves[j].Query? ==> answers[j] == AnswerAt(w, EventsOf(hash, w, pots, moves, faults), j)
  }

  lemma OneMoveMore(hash: Hash, w: World, pots: seq<Pot>, moves: seq<Move>, faults: seq<Faults>, answers: seq<Outcome>,
                    m: Move, f: Faults, answer: Outcome)
    requires IsRun(hash, w, pots, moves, faults, answers) && m.Fits(|pots|, |w.stores|)
    requires var now, e := After(w, EventsOf(hash, w, pots, moves, faults)), EventOf(KeyFunction(hash), pots, ActOf(m, f));
             now.Fits(e) && (m.Query? ==> answer == now.Answer(e).outcome)
    ensures IsRun(hash, w, pots, moves + [m], faults + [f], answers + [answer])
    ensures After(w, EventsOf(hash, w, pots, moves + [m], faults + [f])) ==
            After(w, EventsOf(hash, w, pots, moves, faults)).Next(EventOf(KeyFunction(hash), pots, ActOf(m, f)))
  {
    var e := EventOf(KeyFunction(hash), pots, ActOf(m, f));
    AppendedMove(hash, w, pots, moves, faults, m, f);
    Appended(w, EventsOf(hash, w, pots, moves, faults), e);
  }

  lemma AppendedMove(hash: Hash, w: World, pots: seq<Pot>, moves: seq<Move>, faults: seq<Faults>, m: Move, f: Faults)
    requires MovesFit(w, pots, moves) && |faults| == |moves| && m.Fits(|pots|, |w.stores|)
    ensures MovesFit(w, pots, moves + [m])
    ensures w.Fits(EventOf(KeyFunction(hash), pots, ActOf(m, f)))
    ensures EventsOf(hash, w, pots, moves + [m], faults + [f]) ==
            EventsOf(hash, w, pots, moves, faults) + [EventOf(KeyFunction(hash), pots, ActOf(m, f))]
  {
    var e, more := EventOf(KeyFunction(hash), pots, ActOf(m, f)), EventsOf(hash, w, pots, moves + [m], faults + [f]);
    assert more[|moves|] == e && e in more;
  }

  /** Which store operations fail does not matter for what a run must satisfy beforehand. */
  lemma FaultsDoNotMatter(hash: Hash, w: World, pots: seq<Pot>, moves: seq<Move>, faults: seq<Faults>)
    requires MovesFit(w, pots, moves) && |faults| == |moves|
    requires CollisionFree(KeyFunction(hash), Kinds(pots), Plan(w, pots, moves))
    requires Sound(w, Events(KeyFunction(hash), w, pots, Plan(w, pots, moves)))
    ensures CollisionFree(KeyFunction(hash), Kinds(pots), ActsOf(w, pots, moves, faults))
    ensures Sound(w, EventsOf(hash, w, pots, moves, faults))
  {
    SameCollisions(KeyFunction(hash), Kinds(pots), Plan(w, pots, moves), ActsOf(w, pots, moves, faults));
    SameRequests(w, Events(KeyFunction(hash), w, pots, Plan(w, pots, moves)), EventsOf(hash, w, pots, moves, faults));
  }

  lemma SameCollisions(key: KeyFn, kinds: seq<Word>, plan: seq<Act>, acts: seq<Act>)
    requires |plan| == |acts| && (forall a :: a in plan ==> a.pot < |kinds|) && (forall a :: a in acts ==> a.pot < |kinds|)
    requires forall j :: 0 <= j < |acts| && acts[j].Call? ==> plan[j].Call? && plan[j].pot == acts[j].pot && plan[j].cfg == acts[j].cfg
    requires CollisionFree(key, kinds, plan)
    ensures CollisionFree(key, kinds, acts)
  {
    forall a, b | a in acts && b in acts && a.Call? && b.Call? && key(kinds[a.pot], a.cfg) == key(kinds[b.pot], b.cfg)
      ensures kinds[a.pot] == kinds[b.pot] && a.cfg == b.cfg
    {
      var i :| 0 <= i < |acts| && acts[i] == a;
      var j :| 0 <= j < |acts| && acts[j] == b;
      assert plan[i] in plan && plan[j] in plan;
    }
  }

  lemma SameRequests(w: World, plan: seq<Event>, events: seq<Event>)
    requires |plan| == |events| && Sound(w, plan)
    requires forall j :: 0 <= j < |events| && events[j].Ask? ==> plan[j].Ask? && plan[j].request == events[j].request
    ensures Sound(w, events)
  {
    forall e, s | e in events && e.Ask? && 0 <= s < |w.stores| && e.request.key in w.stores[s]
      ensures ReadBack(w.stores[s][e.request.key], e.request.nAtoms) == e.request.result
    {
      var j :| 0 <= j < |events| && events[j] == e;
      assert plan[j] in plan;
    }
  }

  lemma PlannedRunIsTransparent(hash: Hash, w: World, pots: seq<Pot>, moves: seq<Move>, faults: seq<Faults>, answers: seq<Outcome>)
    requires IsRun(hash, w, pots, moves, faults, answers) && KindsAgree(pots)
    requires CollisionFree(KeyFunction(hash), Kinds(pots), Plan(w, pots, moves))
    requires Sound(w, Events(KeyFunction(hash), w, pots, Plan(w, pots, moves)))
    ensures forall j :: 0 <= j < |moves| && moves[j].Query? ==> IsOwnResult(pots, moves[j], answers[j])
  {
    FaultsDoNotMatter(hash, w, pots, moves, faults);
    var acts := ActsOf(w, pots, moves, faults);
    CacheIsTransparent(KeyFunction(hash), w, pots, acts);
    forall j | 0 <= j < |moves| && moves[j].Query?
      ensures IsOwnResult(pots, moves[j], answers[j])
    {
      assert acts[j] == ActOf(moves[j], faults[j]);
      OwnResult(pots, moves[j]);
    }
  }

  /** What forceImpl gives for the configuration that the arguments of a query describe. */
  ghost predicate IsOwnResult(pots: seq<Pot>, m: Move, answer: Outcome)
    requires m.Query? && m.pot < |pots|
  {
    forall cfg: Config :: Describes(cfg, m.rows, m.positions, m.atmtypes, m.box) ==> answer == pots[m.pot].force(cfg)
  }

  lemma OwnResult(pots: seq<Pot>, m: Move)
    requires m.Query? && m.Shaped() && m.pot < |pots|
    ensures IsOwnResult(pots, m, pots[m.pot].force(ConfigOf(m.rows, m.positions, m.atmtypes, m.box)))
  {
    forall cfg: Config | Describes(cfg, m.rows, m.positions, m.atmtypes, m.box)
      ensures cfg == ConfigOf(m.rows, m.positions, m.atmtypes, m.box)
    {
      DescribedOnce(cfg, m.rows, m.positions, m.atmtypes, m.box);
    }
  }

  // ---------- The objects ----------

  /** The answer of a world to a real query is the abstract evaluation. */
  lemma AnswerIsEvaluation(hash: Hash, pots: seq<Pot>, w: World, p: nat, cfg: Config, f: Faults)
    requires w.Valid() && |pots| == |w.wired| && p < |pots| && pots[p].Valid()
    ensures var e := EventOf(KeyFunction(hash), pots, Act.Call(p, cfg, f));
            w.Fits(e) && w.Answer(e) == Evaluate(hash, pots[p], cfg, w.ShelfOf(p), w.calls, f)
  {
    assert SizedFor(pots[p].force(cfg), cfg.nAtoms);
    assert KeyFunction(hash)(pots[p].kind, cfg) == KeyFor(hash, pots[p].kind, cfg);
  }

  class Session {
    const hash: Hash
    const statics: Registry.Statics
    const stores: seq<Store>
    const caches: seq<Cache>
    const potentials: seq<Potential>

    constructor (hash: Hash, statics: Registry.Statics, stores: seq<Store>, caches: seq<Cache>, potentials: seq<Potential>)
      ensures this.hash == hash && this.statics == statics && this.stores == stores
      ensures this.caches == caches && this.potentials == potentials
    {
      this.hash, this.statics, this.stores, this.caches, this.potentials := hash, statics, stores, caches, potentials;
    }

    function Pots(): (pots: seq<Pot>)
      ensures |pots| == |potentials|
    {
      seq(|potentials|, p requires 0 <= p < |potentials| => potentials[p].pot)
    }

    /** Cache s borrows store s. */
    ghost predicate StoreIs(s: nat, data: Shelf)
      requires s < |stores| && s < |caches|
      reads stores, caches
    {
      stores[s].isOpen && stores[s].data == data && caches[s].db == stores[s] && !caches[s].ownDb
    }

    ghost predicate PotentialIs(p: nat, wired: Option<nat>)
      requires p < |potentials|
      reads potentials
    {
      && potentials[p].statics == statics && potentials[p].hash == hash && potentials[p].pot.Valid()
      && (wired.Some? ==> wired.value < |caches|)
      && potentials[p].cache == if wired.Some? then caches[wired.value] else null
    }

    ghost predicate Represents(w: World)
      reads statics, stores, caches, potentials
    {
      && w.Valid() && statics.forceCalls == w.calls
      && |stores| == |caches| == |w.stores| && |potentials| == |w.wired|
      && (forall s :: 0 <= s < |stores| ==> StoreIs(s, w.stores[s]))
      && (forall p :: 0 <= p < |potentials| ==> PotentialIs(p, w.wired[p]))
      && (forall s, t :: 0 <= s < t < |stores| ==> stores[s] != stores[t])
      && (forall p, q :: 0 <= p < q < |potentials| ==> potentials[p] != potentials[q])
    }

    /** One call: some pattern of faults makes it the abstract evaluation, and only the store behind the cache may change. */
    method Ask(m: Move, ghost w: World) returns (answer: Outcome, ghost f: Faults)
      requires Represents(w) && m.Query? && m.Fits(|potentials|, |caches|)
      modifies statics, stores
      ensures var cfg := ConfigOf(m.rows, m.positions, m.atmtypes, m.box);
              var v := Evaluate(hash, potentials[m.pot].pot, cfg, w.ShelfOf(m.pot), w.calls, f);
              && answer == v.outcome && statics.forceCalls == v.calls
              && (v.shelf.Some? <==> w.wired[m.pot].Some?)
              && (forall s :: 0 <= s < |stores| ==>
                    StoreIs(s, if w.wired[m.pot] == Some(s) then v.shelf.value else w.stores[s]))
    {
      var pot := potentials[m.pot];
      ghost var shelf, at := w.ShelfOf(m.pot), w.wired[m.pot];
      assert PotentialIs(m.pot, at) && (at.Some? ==> StoreIs(at.value, w.stores[at.value]));
      answer := pot.Call(m.rows, m.positions, m.atmtypes, m.box);
      ghost var cfg := ConfigOf(m.rows, m.positions, m.atmtypes, m.box);
      assert Describes(cfg, m.rows, m.positions, m.atmtypes, m.box);
      f :| Evaluation(answer, ShelfOf(pot.cache), statics.forceCalls) == Evaluate(hash, pot.pot, cfg, shelf, w.calls, f);
    }

    method PerformQuery(m: Move, ghost w: World) returns (answer: Outcome, ghost f: Faults)
      requires Represents(w) && m.Query? && m.Fits(|potentials|, |caches|)
      modifies statics, stores
      ensures var e := EventOf(KeyFunction(hash), Pots(), ActOf(m, f));
              w.Fits(e) && answer == w.Answer(e).outcome && Represents(w.Next(e))
    {
      assert forall p :: 0 <= p < |potentials| ==> PotentialIs(p, w.wired[p]);
      answer, f := Ask(m, w);
      AnswerIsEvaluation(hash, Pots(), w, m.pot, ConfigOf(m.rows, m.positions, m.atmtypes, m.box), f);
      assert forall p :: 0 <= p < |potentials| ==> PotentialIs(p, w.wired[p]);
    }

    method PerformUse(m: Move, ghost w: World)
      requires Represents(w) && m.Use? && m.Fits(|potentials|, |caches|)
      modifies potentials
      ensures var e := EventOf(KeyFunction(hash), Pots(), ActOf(m, NO_FAULTS));
              w.Fits(e) && Represents(w.Next(e))
      ensures potentials[m.pot].cache == if m.cache.Some? then caches[m.cache.value] else null
    {
      var c: Cache? := null;
      if m.cache.Some? {
        c := caches[m.cache.value];
      }
      assert forall q :: 0 <= q < |potentials| ==> PotentialIs(q, w.wired[q]);
      potentials[m.pot].SetCache(c);
      ghost var after := w.wired[m.pot := m.cache];
      forall q | 0 <= q < |potentials|
        ensures PotentialIs(q, after[q])
      {
        if q != m.pot {
          assert potentials[q] != potentials[m.pot] && old(PotentialIs(q, w.wired[q]));
        }
      }
      assert forall s :: 0 <= s < |stores| ==> StoreIs(s, w.stores[s]);
    }

    method Perform(m: Move, ghost w: World) returns (answer: Outcome, ghost f: Faults)
      requires Represents(w) && m.Fits(|potentials|, |caches|)
      modifies statics, stores, potentials
      ensures var e := EventOf(KeyFunction(hash), Pots(), ActOf(m, f));
              w.Fits(e) && (m.Query? ==> answer == w.Answer(e).outcome) && Represents(w.Next(e))
    {
      answer, f := Threw, NO_FAULTS;
      if m.Query? {
        answer, f := PerformQuery(m, w);
      } else {
        PerformUse(m, w);
      }
    }

    /** These moves were made under these faults, with these answers. */
    ghost predicate Reached(w: World, moves: seq<Move>, faults: seq<Faults>, answers: seq<Outcome>)
      reads statics, stores, caches, potentials
    {
      IsRun(hash, w, Pots(), moves, faults, answers) && Represents(After(w, EventsOf(hash, w, Pots(), moves, faults)))
    }

    /** Move n of a run, after those before it. */
    method Advance(moves: seq<Move>, n: nat, ghost w: World, ghost faults: seq<Faults>, ghost answers: seq<Outcome>)
      returns (answer: Outcome, ghost f: Faults)
      requires n < |moves| && moves[n].Fits(|potentials|, |w.stores|) && Reached(w, moves[..n], faults, answers)
      modifies statics, stores, potentials
      ensures Reached(w, moves[..n + 1], faults + [f], answers + [answer])
    {
      answer, f := Perform(moves[n], After(w, EventsOf(hash, w, Pots(), moves[..n], faults)));
      OneMoveMore(hash, w, Pots(), moves[..n], faults, answers, moves[n], f, answer);
      assert moves[..n + 1] == moves[..n] + [moves[n]];
    }

    /** Every run of calls and set_cache on the objects, whatever the stores fail to do, is a run of the worlds. */
    method Drive(moves: seq<Move>, ghost w: World) returns (answers: seq<Outcome>, ghost faults: seq<Faults>)
      requires Represents(w) && MovesFit(w, Pots(), moves)
      modifies statics, stores, potentials
      ensures Reached(w, moves, faults, answers)
    {
      answers, faults := [], [];
      for n := 0 to |moves|
        invariant Reached(w, moves[..n], faults, answers)
      {
        ghost var f;
        var answer;
        answer, f := Advance(moves, n, w, faults, answers);
        answers, faults := answers + [answer], faults + [f];
      }
      assert moves[..|moves|] == moves;
    }

    /**
     With collision-free keys, one function for each type tag and stores that start sound, every call of every run on
     the objects returns what forceImpl gives, whatever the stores fail to do; no record is copied past its end.
     */
    method DriveTransparently(moves: seq<Move>, ghost w: World) returns (answers: seq<Outcome>)
      requires Represents(w) && MovesFit(w, Pots(), moves) && KindsAgree(Pots())
      requires CollisionFree(KeyFunction(hash), Kinds(Pots()), Plan(w, Pots(), moves))
      requires Sound(w, Events(KeyFunction(hash), w, Pots(), Plan(w, Pots(), moves)))
      modifies statics, stores, potentials
      ensures |answers| == |moves|
      ensures forall j :: 0 <= j < |moves| && moves[j].Query? ==> IsOwnResult(Pots(), moves[j], answers[j]) && !answers[j].Undefined?
    {
      ghost var faults;
      answers, faults := Drive(moves, w);
      PlannedRunIsTransparent(hash, w, Pots(), moves, faults, answers);
      forall j | 0 <= j < |moves| && moves[j].Query?
        ensures !answers[j].Undefined?
      {
        var cfg := ConfigOf(moves[j].rows, moves[j].positions, moves[j].atmtypes, moves[j].box);
        assert SizedFor(Pots()[moves[j].pot].force(cfg), cfg.nAtoms);
      }
    }
  }

  /** Stores that hold nothing, reliable or not, and potentials without caches. */
  function EmptyWorld(stores: nat, pots: nat): World
  {
    World(seq(stores, _ => map[]), seq(pots, _ => None), 0)
  }

  /** New stores, a cache that borrows each of them, and new potentials of one class. */
  method Open(hash: Hash, specs: seq<Pot>, reliable: seq<bool>) returns (session: Session)
    requires forall p :: 0 <= p < |specs| ==> specs[p].Valid()
    ensures fresh(session) && session.hash == hash && session.Pots() == specs
    ensures session.Represents(EmptyWorld(|reliable|, |specs|))
    ensures forall s :: 0 <= s < |reliable| ==> session.stores[s].reliable == reliable[s]
  {
    var statics := new Registry.Statics();
    var stores, caches := OpenStores(reliable);
    var potentials := NewPotentials(hash, statics, specs);
    session := new Session(hash, statics, stores, caches, potentials);
  }

  method OpenStores(reliable: seq<bool>) returns (stores: seq<Store>, caches: seq<Cache>)
    ensures |stores| == |caches| == |reliable|
    ensures forall s :: 0 <= s < |stores| ==> fresh(stores[s]) && fresh(caches[s]) && stores[s].reliable == reliable[s]
    ensures forall s :: 0 <= s < |stores| ==>
              stores[s].isOpen && stores[s].data == map[] && caches[s].db == stores[s] && !caches[s].ownDb
    ensures forall s, t :: 0 <= s < t < |stores| ==> stores[s] != stores[t]
  {
    stores, caches := [], [];
    for n := 0 to |reliable|
      invariant |stores| == |caches| == n
      invariant forall s :: 0 <= s < n ==> fresh(stores[s]) && fresh(caches[s]) && stores[s].reliable == reliable[s]
      invariant forall s :: 0 <= s < n ==>
                  stores[s].isOpen && stores[s].data == map[] && caches[s].db == stores[s] && !caches[s].ownDb
      invariant forall s, t :: 0 <= s < t < n ==> stores[s] != stores[t]
    {
      var store := new Store(reliable[n]);
      var cache := new Cache();
      cache.SetDb(store);
      stores, caches := stores + [store], caches + [cache];
    }
  }

  method NewPotentials(hash: Hash, statics: Registry.Statics, specs: seq<Pot>) returns (potentials: seq<Potential>)
    ensures |potentials| == |specs|
    ensures forall p :: 0 <= p < |specs| ==> fresh(potentials[p]) && potentials[p].pot == specs[p] && potentials[p].hash == hash
    ensures forall p :: 0 <= p < |specs| ==> potentials[p].statics == statics && potentials[p].cache == null
    ensures forall p, q :: 0 <= p < q < |specs| ==> potentials[p] != potentials[q]
  {
    potentials := [];
    for n := 0 to |specs|
      invariant |potentials| == n
      invariant forall p :: 0 <= p < n ==> fresh(potentials[p]) && potentials[p].pot == specs[p] && potentials[p].hash == hash
      invariant forall p :: 0 <= p < n ==> potentials[p].statics == statics && potentials[p].cache == null
      invariant forall p, q :: 0 <= p < q < n ==> potentials[p] != potentials[q]
    {
      var potential := new Potential(specs[n], hash, statics);
      potentials := potentials + [potential];
    }
  }
}
