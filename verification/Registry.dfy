/**
 The registry that every potential class inherits: a doubly linked list threaded
 through the live instances, with a static head, a static count and a static
 counter of force evaluations.
 */
module Registry {

  /** s without the first occurrence of x. */
  function Without<T(==)>(s: seq<T>, x: T): seq<T>
  {
    if s == [] then [] else if s[0] == x then s[1..] else [s[0]] + Without(s[1..], x)
  }

  ghost predicate Distinct<T>(s: seq<T>)
  {
    forall i, j :: 0 <= i < j < |s| ==> s[i] != s[j]
  }

  lemma {:induction false} WithoutAt<T>(s: seq<T>, x: T, i: nat)
    requires Distinct(s) && i < |s| && s[i] == x
    ensures Without(s, x) == s[..i] + s[i + 1..]
  {
    if i == 0 {
      assert s[..0] + s[1..] == s[1..];
    } else {
      assert s[0] != s[i];
      WithoutAt(s[1..], x, i - 1);
      assert [s[0]] + (s[1..][..i - 1] + s[1..][i..]) == s[..i] + s[i + 1..];
    }
  }

  function Reversed<T>(s: seq<T>): (r: seq<T>)
    ensures |r| == |s|
  {
    if s == [] then [] else Reversed(s[1..]) + [s[0]]
  }

  /** The static members of the registry of one potential class, and the list of its live instances. */
  class Statics {
    var count: nat
    var forceCalls: nat
    var head: Instance?
    ghost var live: seq<Instance>

    constructor ()
      ensures Valid() && live == [] && forceCalls == 0
    {
      count, forceCalls, head, live := 0, 0, null, [];
    }

    /** The pointers describe the list l. */
    ghost predicate Links(l: seq<Instance>)
      reads this, l
    {
      && count == |l|
      && head == At(l, 0)
      && (forall i {:trigger l[i].next} :: 0 <= i < |l| ==> l[i].next == At(l, i + 1))
      && (forall i {:trigger l[i].prev} :: 0 <= i < |l| ==> l[i].prev == At(l, i - 1))
    }

    /** The pointers describe l, except that the neighbours of its element k bypass it. */
    ghost predicate SkipsOver(l: seq<Instance>, k: nat)
      requires k < |l|
      reads this, l
    {
      && count + 1 == |l|
      && head == At(l, if k == 0 then 1 else 0)
      && (forall i {:trigger l[i].next} :: 0 <= i < |l| && i != k ==> l[i].next == At(l, if i + 1 == k then k + 1 else i + 1))
      && (forall i {:trigger l[i].prev} :: 0 <= i < |l| && i != k ==> l[i].prev == At(l, if i == k + 1 then k - 1 else i - 1))
    }

    lemma SkippedIsRemoved(l: seq<Instance>, k: nat)
      requires Distinct(l) && k < |l| && SkipsOver(l, k)
      ensures Distinct(Without(l, l[k])) && Links(Without(l, l[k]))
    {
      var m := Without(l, l[k]);
      WithoutAt(l, l[k], k);
      assert Distinct(m);
      AtWithout(l, k, m, 0);
      forall i {:trigger m[i].next} | 0 <= i < |m|
        ensures m[i].next == At(m, i + 1)
      {
        AtWithout(l, k, m, i);
        AtWithout(l, k, m, i + 1);
      }
      forall i {:trigger m[i].prev} | 0 <= i < |m|
        ensures m[i].prev == At(m, i - 1)
      {
        AtWithout(l, k, m, i);
        AtWithout(l, k, m, i - 1);
      }
    }

    ghost predicate Valid()
      reads this, live
    {
      Distinct(live) && Links(live)
    }

    method IncrementForceCalls()
      modifies this`forceCalls
      ensures forceCalls == old(forceCalls) + 1
    {
      forceCalls := forceCalls + 1;
    }
  }

  /** Element i of l, or null beyond either end. */
  ghost function At(l: seq<Instance>, i: int): Instance?
  {
    if 0 <= i < |l| then l[i] else null
  }

  lemma AtWithout(l: seq<Instance>, k: nat, m: seq<Instance>, i: int)
    requires k < |l| && m == l[..k] + l[k + 1..] && -1 <= i <= |m|
    ensures At(m, i) == At(l, if i < k then i else i + 1)
  {
  }

  class Instance {
    var prev: Instance?
    var next: Instance?

    constructor (reg: Statics)
      requires reg.Valid()
      modifies reg`count, reg`head, reg`live, reg.live
      ensures fresh(this) && reg.Valid() && reg.live == [this] + old(reg.live)
    {
      prev := null;
      next := reg.head;
      new;
      reg.count := reg.count + 1;
      reg.head := this;
      if next != null {
        next.prev := reg.head;
      }
      reg.live := [this] + reg.live;
    }

    /** The copy constructor does not look at other: the copy is a new instance at the head. */
    constructor Copy(reg: Statics, other: Instance)
      requires reg.Valid() && other in reg.live
      modifies reg`count, reg`head, reg`live, reg.live
      ensures fresh(this) && reg.Valid() && reg.live == [this] + old(reg.live)
    {
      prev := null;
      next := reg.head;
      new;
      reg.count := reg.count + 1;
      reg.head := this;
      if next != null {
        next.prev := reg.head;
      }
      reg.live := [this] + reg.live;
    }

    /** The destructor: unlinks this instance wherever it is. */
    method Destroy(reg: Statics)
      requires reg.Valid() && this in reg.live
      modifies reg`count, reg`head, reg`live, reg.live
      ensures reg.Valid() && reg.live == Without(old(reg.live), this)
    {
      ghost var l := reg.live;
      ghost var k :| 0 <= k < |l| && l[k] == this;
      assert prev == At(l, k - 1) && next == At(l, k + 1);
      reg.count := reg.count - 1;
      if prev != null {
        prev.next := next;
      }
      if next != null {
        next.prev := prev;
      }
      if reg.head == this {
        reg.head := next;
      }
      assert reg.SkipsOver(l, k);
      reg.live := Without(l, this);
      reg.SkippedIsRemoved(l, k);
    }

    /** The implicit copy assignment, which the class does not disable: it overwrites the links. */
    method Assign(other: Instance)
      modifies this
      ensures next == old(other.next) && prev == old(other.prev)
    {
      prev, next := other.prev, other.next;
    }
  }

  // ---------- What the pointers reach ----------

  /** The instances met by following next from n, among nodes. */
  ghost function Forward(n: Instance?, nodes: set<Instance>): seq<Instance>
    reads nodes
  {
    if n == null || n !in nodes then [] else [n] + Forward(n.next, nodes - {n})
  }

  /** The instances met by following prev from n, among nodes. */
  ghost function Backward(n: Instance?, nodes: set<Instance>): seq<Instance>
    reads nodes
  {
    if n == null || n !in nodes then [] else [n] + Backward(n.prev, nodes - {n})
  }

  lemma {:induction false} ForwardFrom(reg: Statics, nodes: set<Instance>, i: nat)
    requires reg.Valid() && i <= |reg.live|
    requires forall j :: i <= j < |reg.live| ==> reg.live[j] in nodes
    ensures Forward(At(reg.live, i), nodes) == reg.live[i..]
    decreases |reg.live| - i
  {
    if i < |reg.live| {
      ForwardFrom(reg, nodes - {reg.live[i]}, i + 1);
      assert reg.live[i..] == [reg.live[i]] + reg.live[i + 1..];
    }
  }

  /** Following next from head meets the live instances, each once, whatever other instances exist. */
  lemma HeadReachesLive(reg: Statics, nodes: set<Instance>)
    requires reg.Valid() && forall x :: x in reg.live ==> x in nodes
    ensures Forward(reg.head, nodes) == reg.live
    ensures |Forward(reg.head, nodes)| == reg.count
    ensures reg.head != null ==> reg.head.prev == null
  {
    ForwardFrom(reg, nodes, 0);
    assert reg.live[0..] == reg.live;
  }

  lemma {:induction false} BackwardFrom(reg: Statics, nodes: set<Instance>, i: nat)
    requires reg.Valid() && i <= |reg.live|
    requires forall j :: 0 <= j < i ==> reg.live[j] in nodes
    ensures Backward(At(reg.live, i - 1), nodes) == Reversed(reg.live[..i])
    decreases i
  {
    if 0 < i {
      BackwardFrom(reg, nodes - {reg.live[i - 1]}, i - 1);
      ReversedAppend(reg.live[..i - 1], reg.live[i - 1]);
      assert reg.live[..i] == reg.live[..i - 1] + [reg.live[i - 1]];
    }
  }

  lemma {:induction false} ReversedAppend<T>(s: seq<T>, x: T)
    ensures Reversed(s + [x]) == [x] + Reversed(s)
  {
    if s == [] {
      assert [x] + [] == [x];
    } else {
      assert (s + [x])[1..] == s[1..] + [x];
      ReversedAppend(s[1..], x);
    }
  }

  /** Following prev from the last live instance meets the live instances in the opposite order. */
  lemma TailReachesLiveReversed(reg: Statics, nodes: set<Instance>)
    requires reg.Valid() && forall x :: x in reg.live ==> x in nodes
    ensures Backward(At(reg.live, |reg.live| - 1), nodes) == Reversed(reg.live)
    ensures Reversed(Forward(reg.head, nodes)) == Reversed(reg.live)
  {
    BackwardFrom(reg, nodes, |reg.live|);
    assert reg.live[..|reg.live|] == reg.live;
    HeadReachesLive(reg, nodes);
  }

  /** prev and next are inverse to each other on the live instances. */
  lemma LinksAreInverse(reg: Statics, x: Instance, y: Instance)
    requires reg.Valid() && x in reg.live && y in reg.live
    ensures x.next == y <==> y.prev == x
  {
    var i :| 0 <= i < |reg.live| && reg.live[i] == x;
    var j :| 0 <= j < |reg.live| && reg.live[j] == y;
  }

  // ---------- Whole runs ----------

  /** One operation; instances are named by the order of their construction. */
  datatype Op = Construct | CopyOf(source: nat) | Destroy(target: nat)

  /** How many instances were constructed so far, and which are live, newest first. */
  datatype State = State(created: nat, live: seq<nat>)

  predicate Allowed(s: State, op: Op)
  {
    match op
    case Construct => true
    case CopyOf(k) => k in s.live
    case Destroy(k) => k in s.live
  }

  function Step(s: State, op: Op): State
  {
    match op
    case Destroy(k) => s.(live := Without(s.live, k))
    case _ => State(s.created + 1, [s.created] + s.live)
  }

  function After(ops: seq<Op>): State
  {
    if ops == [] then State(0, []) else Step(After(ops[..|ops| - 1]), ops[|ops| - 1])
  }

  /** Copies and destructions only of live instances, at every point of the run. */
  predicate IsRun(ops: seq<Op>)
  {
    ops != [] ==> IsRun(ops[..|ops| - 1]) && Allowed(After(ops[..|ops| - 1]), ops[|ops| - 1])
  }

  ghost predicate Represents(reg: Statics, created: seq<Instance>, s: State)
    reads reg, reg.live
  {
    && reg.Valid() && Distinct(created) && s.created == |created|
    && Names(s.live, created, reg.live)
  }

  /** The numbers in serials are those of the instances in live. */
  ghost predicate Names(serials: seq<nat>, created: seq<Instance>, live: seq<Instance>)
  {
    && |live| == |serials|
    && forall i :: 0 <= i < |serials| ==> serials[i] < |created| && live[i] == created[serials[i]]
  }

  lemma {:induction false} RemoveBoth(serials: seq<nat>, created: seq<Instance>, live: seq<Instance>, k: nat)
    requires Distinct(created) && k < |created| && Names(serials, created, live)
    ensures Names(Without(serials, k), created, Without(live, created[k]))
  {
    if serials != [] {
      var rest, others := serials[1..], live[1..];
      assert Names(rest, created, others);
      assert live[0] == created[k] <==> serials[0] == k;
      RemoveBoth(rest, created, others, k);
      if serials[0] != k {
        NamesCons(serials[0], Without(rest, k), created, Without(others, created[k]));
      }
    }
  }

  lemma NamesCons(n: nat, serials: seq<nat>, created: seq<Instance>, live: seq<Instance>)
    requires n < |created| && Names(serials, created, live)
    ensures Names([n] + serials, created, [created[n]] + live)
  {
  }

  /** Every run of constructions, copies and destructions keeps the list well formed and follows the abstract run. */
  method Drive(ops: seq<Op>) returns (reg: Statics, created: seq<Instance>)
    requires IsRun(ops)
    ensures fresh(reg) && Represents(reg, created, After(ops))
    ensures reg.count == |After(ops).live|
  {
    reg := new Statics();
    created := [];
    var n := 0;
    while n < |ops|
      invariant 0 <= n <= |ops| && fresh(reg) && IsRun(ops[..n])
      invariant Represents(reg, created, After(ops[..n])) && forall x :: x in created ==> fresh(x)
    {
      PrefixIsRun(ops, n + 1);
      ghost var before := After(ops[..n]);
      assert forall i :: 0 <= i < |reg.live| ==> reg.live[i] in created;
      assert ops[..n + 1][..n] == ops[..n];
      created := Perform(reg, created, ops[n], before);
      n := n + 1;
    }
    assert ops[..n] == ops;
  }

  lemma {:induction false} PrefixIsRun(ops: seq<Op>, n: nat)
    requires IsRun(ops) && n <= |ops|
    ensures IsRun(ops[..n])
    decreases |ops|
  {
    if n < |ops| {
      PrefixIsRun(ops[..|ops| - 1], n);
      assert ops[..|ops| - 1][..n] == ops[..n];
    } else {
      assert ops[..n] == ops;
    }
  }

  method Perform(reg: Statics, created: seq<Instance>, op: Op, ghost s: State) returns (all: seq<Instance>)
    requires Represents(reg, created, s) && Allowed(s, op)
    modifies reg, reg.live
    ensures Represents(reg, all, Step(s, op))
    ensures forall x :: x in all ==> x in created || fresh(x)
  {
    all := created;
    if op.Construct? {
      var x := new Instance(reg);
      all := created + [x];
    } else if op.CopyOf? {
      var x := new Instance.Copy(reg, created[op.source]);
      all := created + [x];
    } else {
      RemoveBoth(s.live, created, reg.live, op.target);
      created[op.target].Destroy(reg);
    }
  }

  ghost predicate Descending(s: seq<nat>)
  {
    forall i, j :: 0 <= i < j < |s| ==> s[i] > s[j]
  }

  lemma {:induction false} RemovalKeepsOrder(s: seq<nat>, k: nat)
    requires Descending(s)
    ensures Descending(Without(s, k)) && forall x :: x in Without(s, k) <==> x in s && x != k
  {
    if s != [] {
      assert forall x :: x in s <==> x == s[0] || x in s[1..];
      RemovalKeepsOrder(s[1..], k);
      forall x | x in s[1..] ensures x < s[0] { }
    }
  }

  lemma DestroyedBy(before: seq<Op>, op: Op, k: nat)
    ensures Destroy(k) in before + [op] <==> Destroy(k) in before || op == Destroy(k)
  {
  }

  ghost predicate NewestFirst(ops: seq<Op>)
  {
    && Descending(After(ops).live)
    && (forall k: nat :: k in After(ops).live <==> k < After(ops).created && Destroy(k) !in ops)
    && (forall k: nat :: Destroy(k) in ops ==> k < After(ops).created)
  }

  /** The list is always in order of construction, newest first, and holds exactly the instances never destroyed. */
  lemma {:induction false} LiveNewestFirst(ops: seq<Op>)
    requires IsRun(ops)
    ensures NewestFirst(ops)
  {
    if ops != [] {
      var before, op := ops[..|ops| - 1], ops[|ops| - 1];
      assert ops == before + [op];
      LiveNewestFirst(before);
      StepKeepsOrder(After(before), op);
      forall k: nat
        ensures Destroy(k) in ops <==> Destroy(k) in before || op == Destroy(k)
      {
        DestroyedBy(before, op, k);
      }
    }
  }

  lemma StepKeepsOrder(s: State, op: Op)
    requires Allowed(s, op) && Descending(s.live) && forall k :: k in s.live ==> k < s.created
    ensures Descending(Step(s, op).live)
    ensures forall k :: k in Step(s, op).live <==> (k in s.live || (k == s.created && !op.Destroy?)) && op != Destroy(k)
  {
    if op.Destroy? {
      RemovalKeepsOrder(s.live, op.target);
    } else {
      forall i | 0 <= i < |s.live|
        ensures s.created > s.live[i]
      {
        assert s.live[i] in s.live;
      }
    }
  }

  /** Two runs with as many constructions and the same destructions, in any order, leave the same list. */
  lemma OrderOfDestructionIrrelevant(ops: seq<Op>, other: seq<Op>)
    requires IsRun(ops) && IsRun(other) && After(ops).created == After(other).created
    requires forall k: nat :: Destroy(k) in ops <==> Destroy(k) in other
    ensures After(ops) == After(other)
  {
    LiveNewestFirst(ops);
    LiveNewestFirst(other);
    SameDescending(After(ops).live, After(other).live);
  }

  lemma Inhabited(s: seq<nat>)
    ensures s == [] || exists k: nat :: k in s
  {
    if s != [] { assert s[0] in s; }
  }

  lemma {:induction false} SameDescending(s: seq<nat>, t: seq<nat>)
    requires Descending(s) && Descending(t) && forall x :: x in s <==> x in t
    ensures s == t
  {
    if s == [] {
      Inhabited(t);
    } else {
      assert s[0] in t && t != [] && t[0] in s;
      assert forall x :: x in s <==> x == s[0] || x in s[1..];
      assert forall x :: x in t <==> x == t[0] || x in t[1..];
      assert s[0] == t[0];
      assert s[0] !in s[1..] && t[0] !in t[1..];
      SameDescending(s[1..], t[1..]);
    }
  }

  // ---------- Why runs exclude the implicit copy assignment ----------

  /** Assigning one live instance to another breaks the list beyond any rearrangement; assigning it to itself does nothing. */
  method AssignBreaksTheList(reg: Statics, dst: Instance, src: Instance)
    requires reg.Valid() && dst in reg.live && src in reg.live
    modifies dst
    ensures reg.live == old(reg.live)
    ensures reg.Valid() <==> dst == src
    ensures (exists l :: Rearranges(l, reg.live) && reg.Links(l)) <==> dst == src
  {
    dst.Assign(src);
    if dst == src {
      assert Rearranges(reg.live, reg.live) && reg.Links(reg.live);
    } else {
      forall l | Rearranges(l, reg.live)
        ensures !reg.Links(l)
      {
        OneNextEach(reg, l, dst, src);
      }
    }
  }

  ghost predicate Rearranges(l: seq<Instance>, live: seq<Instance>)
  {
    && Distinct(l)
    && (forall i :: 0 <= i < |l| ==> l[i] in live)
    && (forall i :: 0 <= i < |live| ==> live[i] in l)
  }

  lemma OneNextEach(reg: Statics, l: seq<Instance>, x: Instance, y: Instance)
    requires Distinct(l) && x in l && y in l && x != y && x.next == y.next
    ensures !reg.Links(l)
  {
    var p :| 0 <= p < |l| && l[p] == x;
    var q :| 0 <= q < |l| && l[q] == y;
    assert At(l, p + 1) != At(l, q + 1);
  }
}
