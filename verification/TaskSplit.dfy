/**
 How the MPI script spreads its calculations: strided chunks scattered to the
 ranks, dictionaries gathered and merged, and round-robin over the RPC hosts.
 */
module TaskSplit {

  /** A calculation: the name of a structure and its atoms. */
  type Task<A> = (string, A)

  // ---------- Strided chunks ----------

  /** The Python slice ts[i::size]. */
  function Strided<T>(ts: seq<T>, i: nat, size: nat): seq<T>
    requires 0 < size
    decreases |ts| - i
  {
    if |ts| <= i then [] else [ts[i]] + Strided(ts, i + size, size)
  }

  /** Position m of the chunk that starts at i exists exactly when element i + m size does, and is that element. */
  lemma {:induction false} StridedAt<T>(ts: seq<T>, i: nat, size: nat, m: nat)
    requires 0 < size
    ensures m < |Strided(ts, i, size)| <==> i + m * size < |ts|
    ensures i + m * size < |ts| ==> m < |Strided(ts, i, size)| && Strided(ts, i, size)[m] == ts[i + m * size]
    decreases m
  {
    if 0 < m {
      StridedAt(ts, i + size, size, m - 1);
      assert i + size + (m - 1) * size == i + m * size;
      assert 0 <= m * size && |ts| <= i ==> |ts| <= i + m * size;
    }
  }

  lemma Quotients(k: nat, size: nat)
    requires 0 < size
    ensures k % size + k / size * size == k
  {
  }

  lemma SameQuotient(i: nat, m: nat, size: nat)
    requires i < size
    ensures (i + m * size) % size == i && (i + m * size) / size == m
  {
    var k := i + m * size;
    var d := k / size - m;
    assert k / size * size + k % size == k;
    assert d * size == i - k % size;
    Multiple(d, size);
  }

  lemma Multiple(d: int, size: int)
    requires 0 < size
    ensures 1 <= d ==> size <= d * size
    ensures d <= -1 ==> d * size <= -size
  {
  }

  /** Every task is in a chunk: task k on rank k mod size, at position k div size. */
  lemma TaskIsInChunk<T>(ts: seq<T>, size: nat, k: nat)
    requires 0 < size && k < |ts|
    ensures k % size < size && k / size < |Strided(ts, k % size, size)| && Strided(ts, k % size, size)[k / size] == ts[k]
  {
    Quotients(k, size);
    StridedAt(ts, k % size, size, k / size);
  }

  /** And nowhere else: position m of rank i holds a task with that rank and position. */
  lemma ChunkHoldsTask<T>(ts: seq<T>, size: nat, i: nat, m: nat)
    requires i < size && m < |Strided(ts, i, size)|
    ensures var k := i + m * size; k < |ts| && k % size == i && k / size == m && Strided(ts, i, size)[m] == ts[k]
  {
    StridedAt(ts, i, size, m);
    SameQuotient(i, m, size);
  }

  /** Chunk lengths never increase with the rank and differ by at most one. */
  lemma ChunksBalanced<T>(ts: seq<T>, size: nat, i: nat, j: nat)
    requires i <= j < size
    ensures |Strided(ts, j, size)| <= |Strided(ts, i, size)| <= |Strided(ts, j, size)| + 1
  {
    var a, b := |Strided(ts, i, size)|, |Strided(ts, j, size)|;
    StridedAt(ts, i, size, a);
    StridedAt(ts, j, size, a);
    StridedAt(ts, j, size, b);
    StridedAt(ts, i, size, b + 1);
    assert (b + 1) * size == b * size + size;
  }

  // ---------- Gather and merge ----------

  /** The dictionary that computing all tasks one after the other gives. */
  function Results<A, R>(ts: seq<Task<A>>, f: A -> R): map<string, R>
  {
    if ts == [] then map[] else Results(ts[..|ts| - 1], f)[ts[|ts| - 1].0 := f(ts[|ts| - 1].1)]
  }

  predicate DistinctNames<A>(ts: seq<Task<A>>)
  {
    forall k, l :: 0 <= k < l < |ts| ==> ts[k].0 != ts[l].0
  }

  /** Every entry of m is the result of some task. */
  ghost predicate EntriesOf<A, R>(m: map<string, R>, ts: seq<Task<A>>, f: A -> R)
  {
    forall name :: name in m ==> exists k :: 0 <= k < |ts| && ts[k].0 == name && m[name] == f(ts[k].1)
  }

  lemma {:induction false} ResultsAreEntries<A, R>(ts: seq<Task<A>>, f: A -> R)
    ensures EntriesOf(Results(ts, f), ts, f)
    ensures forall k :: 0 <= k < |ts| ==> ts[k].0 in Results(ts, f)
  {
    if ts != [] {
      var last := |ts| - 1;
      var m := Results(ts[..last], f);
      ResultsAreEntries(ts[..last], f);
      forall name | name in Results(ts, f)
        ensures exists k :: 0 <= k < |ts| && ts[k].0 == name && Results(ts, f)[name] == f(ts[k].1)
      {
        if name == ts[last].0 {
          assert Results(ts, f)[name] == f(ts[last].1);
        } else {
          var k :| 0 <= k < last && ts[..last][k].0 == name && m[name] == f(ts[..last][k].1);
          assert ts[k].0 == name;
        }
      }
      forall k | 0 <= k < |ts|
        ensures ts[k].0 in Results(ts, f)
      {
        if k < last { assert ts[..last][k].0 in m; }
      }
    }
  }

  /** With distinct names the entries determine the dictionary. */
  lemma EntriesDetermine<A, R>(m: map<string, R>, ts: seq<Task<A>>, f: A -> R)
    requires DistinctNames(ts) && EntriesOf(m, ts, f) && forall k :: 0 <= k < |ts| ==> ts[k].0 in m
    ensures m == Results(ts, f)
  {
    var r := Results(ts, f);
    ResultsAreEntries(ts, f);
    forall name | name in m
      ensures name in r && m[name] == r[name]
    {
      var i := EntryIndex(m, ts, f, name);
      assert ts[i].0 in r;
      var j := EntryIndex(r, ts, f, name);
      assert i == j;
    }
    forall name | name in r
      ensures name in m
    {
      var j := EntryIndex(r, ts, f, name);
      assert ts[j].0 in m;
    }
  }

  ghost function EntryIndex<A, R>(m: map<string, R>, ts: seq<Task<A>>, f: A -> R, name: string): (k: nat)
    requires EntriesOf(m, ts, f) && name in m
    ensures k < |ts| && ts[k].0 == name && m[name] == f(ts[k].1)
  {
    var k :| 0 <= k < |ts| && ts[k].0 == name && m[name] == f(ts[k].1);
    k
  }

  /** chunked_tasks */
  method SplitTasks<T>(tasks: seq<T>, size: nat) returns (chunks: seq<seq<T>>)
    requires 0 < size
    ensures |chunks| == size && forall i :: 0 <= i < size ==> chunks[i] == Strided(tasks, i, size)
  {
    chunks := [];
    for i := 0 to size
      invariant |chunks| == i && forall r :: 0 <= r < i ==> chunks[r] == Strided(tasks, r, size)
    {
      chunks := chunks + [Strided(tasks, i, size)];
    }
  }

  /** One rank's share: a dictionary comprehension over its chunk. */
  method LocalResults<A, R>(chunk: seq<Task<A>>, f: A -> R) returns (results: map<string, R>)
    ensures results == Results(chunk, f)
  {
    results := map[];
    for k := 0 to |chunk|
      invariant results == Results(chunk[..k], f)
    {
      assert chunk[..k + 1][..k] == chunk[..k];
      results := results[chunk[k].0 := f(chunk[k].1)];
    }
    assert chunk[..|chunk|] == chunk;
  }

  /** The gathered dictionaries, merged one after the other. */
  method MergeResults<R>(gathered: seq<map<string, R>>) returns (all: map<string, R>)
    ensures forall name :: name in all <==> exists r :: 0 <= r < |gathered| && name in gathered[r]
    ensures forall name :: name in all ==> exists r :: 0 <= r < |gathered| && name in gathered[r] && all[name] == gathered[r][name]
  {
    all := map[];
    var r := 0;
    while r < |gathered|
      invariant 0 <= r <= |gathered|
      invariant forall name :: name in all <==> exists q :: 0 <= q < r && name in gathered[q]
      invariant forall name :: name in all ==> exists q :: 0 <= q < r && name in gathered[q] && all[name] == gathered[q][name]
    {
      all := all + gathered[r];
      r := r + 1;
    }
  }

  /** Scatter, compute, gather and merge give the dictionary of a sequential computation. */
  method ParallelResults<A, R>(tasks: seq<Task<A>>, size: nat, f: A -> R) returns (all: map<string, R>)
    requires 0 < size && DistinctNames(tasks)
    ensures all == Results(tasks, f)
  {
    var chunks := SplitTasks(tasks, size);
    var gathered: seq<map<string, R>> := [];
    for rank := 0 to size
      invariant |gathered| == rank && forall r :: 0 <= r < rank ==> gathered[r] == Results(chunks[r], f)
    {
      var localResults := LocalResults(chunks[rank], f);
      gathered := gathered + [localResults];
    }
    all := MergeResults(gathered);
    MergedIsSequential(tasks, size, f, gathered, all);
  }

  lemma MergedIsSequential<A, R>(ts: seq<Task<A>>, size: nat, f: A -> R, gathered: seq<map<string, R>>, all: map<string, R>)
    requires 0 < size && DistinctNames(ts) && |gathered| == size
    requires forall r :: 0 <= r < size ==> gathered[r] == Results(Strided(ts, r, size), f)
    requires forall name :: name in all <==> exists r :: 0 <= r < |gathered| && name in gathered[r]
    requires forall name :: name in all ==> exists r :: 0 <= r < |gathered| && name in gathered[r] && all[name] == gathered[r][name]
    ensures all == Results(ts, f)
  {
    forall name | name in all
      ensures exists k :: 0 <= k < |ts| && ts[k].0 == name && all[name] == f(ts[k].1)
    {
      var r :| 0 <= r < |gathered| && name in gathered[r] && all[name] == gathered[r][name];
      var k := TaskOfEntry(ts, size, f, r, name);
    }
    forall k | 0 <= k < |ts|
      ensures ts[k].0 in all
    {
      EntryOfTask(ts, size, f, k);
      assert ts[k].0 in gathered[k % size];
    }
    EntriesDetermine(all, ts, f);
  }

  /** What rank r computed under a name is the result of one of the tasks. */
  lemma TaskOfEntry<A, R>(ts: seq<Task<A>>, size: nat, f: A -> R, r: nat, name: string) returns (k: nat)
    requires r < size && name in Results(Strided(ts, r, size), f)
    ensures k < |ts| && ts[k].0 == name && Results(Strided(ts, r, size), f)[name] == f(ts[k].1)
  {
    var chunk := Strided(ts, r, size);
    ResultsAreEntries(chunk, f);
    var m := EntryIndex(Results(chunk, f), chunk, f, name);
    ChunkHoldsTask(ts, size, r, m);
    k := r + m * size;
  }

  lemma EntryOfTask<A, R>(ts: seq<Task<A>>, size: nat, f: A -> R, k: nat)
    requires 0 < size && k < |ts|
    ensures k % size < size && ts[k].0 in Results(Strided(ts, k % size, size), f)
  {
    TaskIsInChunk(ts, size, k);
    ResultsAreEntries(Strided(ts, k % size, size), f);
  }

  // ---------- Round-robin over the hosts ----------

  /** The tasks that go to host j when task k goes to host k mod hosts. */
  function OnHost<T>(ts: seq<T>, j: nat, hosts: nat): seq<T>
    requires 0 < hosts
  {
    if ts == [] then [] else
      var last := |ts| - 1;
      OnHost(ts[..last], j, hosts) + if last % hosts == j then [ts[last]] else []
  }

  lemma {:induction false} StridedOfOneMore<T>(ts: seq<T>, x: T, i: nat, size: nat)
    requires 0 < size
    ensures Strided(ts + [x], i, size) == Strided(ts, i, size) + if i <= |ts| && (|ts| - i) % size == 0 then [x] else []
    decreases |ts| + 1 - i
  {
    if i < |ts| {
      StridedOfOneMore(ts, x, i + size, size);
      OneStepMore(|ts| - i, size);
    } else if i == |ts| {
      assert Strided(ts + [x], i + size, size) == [];
    }
  }

  lemma OneStepMore(d: nat, size: nat)
    requires 0 < size && 0 < d
    ensures d % size == 0 <==> size <= d && (d - size) % size == 0
  {
    Quotients(d, size);
    if size <= d {
      SameQuotient(d % size, d / size - 1, size);
      assert d - size == d % size + (d / size - 1) * size;
    }
  }

  /** Round-robin gives every host the same tasks, in the same order, as the strided chunk of that rank. */
  lemma {:induction false} RoundRobinIsStrided<T>(ts: seq<T>, j: nat, hosts: nat)
    requires j < hosts
    ensures OnHost(ts, j, hosts) == Strided(ts, j, hosts)
  {
    if ts != [] {
      var last := |ts| - 1;
      RoundRobinIsStrided(ts[..last], j, hosts);
      assert ts == ts[..last] + [ts[last]];
      StridedOfOneMore(ts[..last], ts[last], j, hosts);
      SameRemainder(last, j, hosts);
    }
  }

  lemma SameRemainder(k: nat, j: nat, size: nat)
    requires j < size
    ensures k % size == j <==> j <= k && (k - j) % size == 0
  {
    Quotients(k, size);
    SameQuotient(0, k / size, size);
    assert (k - k % size) % size == 0;
    if j <= k && (k - j) % size == 0 {
      Quotients(k - j, size);
      SameQuotient(j, (k - j) / size, size);
    }
  }

  /** The structures that a list of tasks sends to one host, in order. */
  function SentTo<T>(tasks: seq<(string, T)>, host: string): seq<T>
  {
    if tasks == [] then [] else
      var last := |tasks| - 1;
      SentTo(tasks[..last], host) + if tasks[last].0 == host then [tasks[last].1] else []
  }

  predicate DistinctHosts(hosts: seq<string>)
  {
    forall j, l :: 0 <= j < l < |hosts| ==> hosts[j] != hosts[l]
  }

  /** Every host is sent the structures of its number. */
  ghost predicate Served<T>(tasks: seq<(string, T)>, structures: seq<T>, hosts: seq<string>)
  {
    forall j :: 0 <= j < |hosts| ==> SentTo(tasks, hosts[j]) == OnHost(structures, j, |hosts|)
  }

  lemma ServedOneMore<T>(tasks: seq<(string, T)>, structures: seq<T>, hosts: seq<string>, s: T)
    requires hosts != [] && DistinctHosts(hosts) && |tasks| == |structures| && Served(tasks, structures, hosts)
    ensures Served(tasks + [(hosts[|structures| % |hosts|], s)], structures + [s], hosts)
  {
    var turn := |structures| % |hosts|;
    var more := tasks + [(hosts[turn], s)];
    forall j | 0 <= j < |hosts|
      ensures SentTo(more, hosts[j]) == OnHost(structures + [s], j, |hosts|)
    {
      assert more[..|tasks|] == tasks && (structures + [s])[..|structures|] == structures;
      assert hosts[j] == hosts[turn] <==> j == turn;
    }
  }

  /**
   The loop that creates one task for each structure, on the host whose turn it is. Every one of several distinct hosts
   gets the strided chunk of its number, in order.
   */
  method AssignHosts<T>(structures: seq<T>, hosts: seq<string>) returns (tasks: seq<(string, T)>)
    requires hosts != []
    ensures |tasks| == |structures|
    ensures forall k :: 0 <= k < |tasks| ==> tasks[k] == (hosts[k % |hosts|], structures[k])
    ensures DistinctHosts(hosts) ==> forall j :: 0 <= j < |hosts| ==> SentTo(tasks, hosts[j]) == Strided(structures, j, |hosts|)
  {
    tasks := [];
    for i := 0 to |structures|
      invariant |tasks| == i && forall k :: 0 <= k < i ==> tasks[k] == (hosts[k % |hosts|], structures[k])
      invariant DistinctHosts(hosts) ==> Served(tasks, structures[..i], hosts)
    {
      if DistinctHosts(hosts) { ServedOneMore(tasks, structures[..i], hosts, structures[i]); }
      assert structures[..i + 1] == structures[..i] + [structures[i]];
      tasks := tasks + [(hosts[i % |hosts|], structures[i])];
    }
    assert structures[..|structures|] == structures;
    forall j | 0 <= j < |hosts|
      ensures OnHost(structures, j, |hosts|) == Strided(structures, j, |hosts|)
    {
      RoundRobinIsStrided(structures, j, |hosts|);
    }
  }
}
