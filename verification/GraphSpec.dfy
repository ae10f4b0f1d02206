/**
  Dependency graphs as mathematical values: edges, cycles, topological orders and the
  lexicographically least one, with no reference to how the task graph computes them.
 */
module GraphSpec {
  import opened Ids

  /** The identifiers in insertion order, and the dependency list each task was added with. */
  datatype Graph = Graph(ids: seq<Id>, deps: map<Id, seq<Id>>)

  ghost predicate WellFormed(g: Graph) {
    Distinct(g.ids) && forall x :: x in g.ids <==> x in g.deps
  }

  /** Task `n` depends on task `p`, both being in the graph. */
  ghost predicate Edge(g: Graph, p: Id, n: Id) {
    p in g.deps && n in g.deps && p in g.deps[n]
  }

  /** Every step of `p` goes from a task to one of its dependents. */
  ghost predicate IsPath(g: Graph, p: seq<Id>) {
    p != [] && forall i :: 0 <= i < |p| - 1 ==> Edge(g, p[i], p[i + 1])
  }

  ghost predicate IsCycle(g: Graph, c: seq<Id>) {
    IsPath(g, c) && |c| >= 2 && c[0] == c[|c| - 1]
  }

  ghost predicate Cyclic(g: Graph) {
    exists c :: IsCycle(g, c)
  }

  /** A permutation of the tasks in which every dependency comes before its dependents. */
  ghost predicate Topological(g: Graph, o: seq<Id>) {
    && Distinct(o)
    && (forall x :: x in o <==> x in g.deps)
    && forall i, j :: 0 <= i < |o| && 0 <= j < |o| && Edge(g, o[i], o[j]) ==> i < j
  }

  ghost predicate LexLess(a: seq<Id>, b: seq<Id>) {
    exists k :: 0 <= k < |a| && k < |b| && a[..k] == b[..k] && Lt(a[k], b[k])
  }

  ghost predicate LeastTopological(g: Graph, o: seq<Id>) {
    Topological(g, o) && forall t :: Topological(g, t) ==> t == o || LexLess(o, t)
  }

  /** In the least order two neighbours without an edge between them stand in code-point order. */
  lemma NeighboursAscend(g: Graph, o: seq<Id>, i: nat)
    requires LeastTopological(g, o) && i + 1 < |o| && !Edge(g, o[i], o[i + 1])
    ensures Before(o[i], o[i + 1])
  {
    var t := o[i := o[i + 1]][i + 1 := o[i]];
    SwapTopological(g, o, t, i);
    assert t[i] != o[i];
    var k :| 0 <= k < |o| && k < |t| && o[..k] == t[..k] && Lt(o[k], t[k]);
    LtIrreflexive(o[k]);
    Agree(o, t, k);
    LtExact(o[i], o[i + 1]);
  }

  lemma Agree<T>(s: seq<T>, t: seq<T>, k: nat)
    requires k <= |s| && k <= |t| && s[..k] == t[..k]
    ensures forall j :: 0 <= j < k ==> s[j] == t[j]
  {
    assert forall j :: 0 <= j < k ==> s[j] == s[..k][j] && t[j] == t[..k][j];
  }

  lemma SwapTopological(g: Graph, o: seq<Id>, t: seq<Id>, i: nat)
    requires Topological(g, o) && i + 1 < |o| && !Edge(g, o[i], o[i + 1])
    requires t == o[i := o[i + 1]][i + 1 := o[i]]
    ensures Topological(g, t)
  {
    forall x
      ensures x in t <==> x in o
    {
      if x in o {
        var k :| 0 <= k < |o| && o[k] == x;
        assert t[if k == i then i + 1 else if k == i + 1 then i else k] == x;
      }
    }
  }

  /** Some task lists a dependency twice or more, and that dependency was added after it. */
  ghost predicate LateRepeat(g: Graph) {
    exists i, j :: 0 <= i < j < |g.ids| && g.ids[i] in g.deps && multiset(g.deps[g.ids[i]])[g.ids[j]] >= 2
  }

  /** No dependency list repeats an entry. */
  ghost predicate DuplicateFree(g: Graph) {
    forall x :: x in g.deps ==> Distinct(g.deps[x])
  }

  lemma DuplicateFreeNoLateRepeat(g: Graph)
    requires DuplicateFree(g)
    ensures !LateRepeat(g)
  {
    forall i, j | 0 <= i < j < |g.ids| && g.ids[i] in g.deps
      ensures multiset(g.deps[g.ids[i]])[g.ids[j]] < 2
    {
      DistinctCount(g.deps[g.ids[i]], g.ids[j]);
    }
  }

  /** What `topological_sort` may return. */
  ghost predicate SortResult(g: Graph, o: seq<Id>) {
    LeastTopological(g, o) && !LateRepeat(g)
  }

  /** All in-graph dependencies of `x` are in `prefix`. */
  ghost predicate DepsIn(g: Graph, prefix: seq<Id>, x: Id) {
    forall p :: Edge(g, p, x) ==> p in prefix
  }

  lemma {:induction false} PathAscends(g: Graph, o: seq<Id>, c: seq<Id>, i: nat, j: nat)
    requires Topological(g, o) && IsPath(g, c) && |c| >= 2
    requires i < |o| && j < |o| && o[i] == c[0] && o[j] == c[|c| - 1]
    ensures i < j
    decreases |c|
  {
    assert Edge(g, c[0], c[1]);
    var k :| 0 <= k < |o| && o[k] == c[1];
    assert Edge(g, o[i], o[k]);
    if |c| > 2 {
      PathAscends(g, o, c[1..], k, j);
    }
  }

  /** A graph with a topological order has no cycle. */
  lemma TopologicalAcyclic(g: Graph, o: seq<Id>)
    requires Topological(g, o)
    ensures !Cyclic(g)
  {
    if Cyclic(g) {
      var c :| IsCycle(g, c);
      assert Edge(g, c[0], c[1]);
      var i :| 0 <= i < |o| && o[i] == c[0];
      PathAscends(g, o, c, i, i);
    }
  }

  lemma LexLessAsymmetric(a: seq<Id>, b: seq<Id>)
    requires LexLess(a, b)
    ensures !LexLess(b, a)
  {
    var k :| 0 <= k < |a| && k < |b| && a[..k] == b[..k] && Lt(a[k], b[k]);
    LtAsymmetric(a[k], b[k]);
    LtIrreflexive(a[k]);
    forall m | 0 <= m < |b| && m < |a| && b[..m] == a[..m]
      ensures !Lt(b[m], a[m])
    {
      if m < k {
        assert a[m] == a[..k][m] == b[..k][m] == b[m];
        LtIrreflexive(a[m]);
      }
    }
  }

  /** The least topological order depends only on the dependency lists, not on insertion order. */
  lemma LeastTopologicalUnique(g: Graph, h: Graph, o: seq<Id>, t: seq<Id>)
    requires g.deps == h.deps && LeastTopological(g, o) && LeastTopological(h, t)
    ensures o == t
  {
    assert Topological(g, t) && Topological(h, o) by {
      assert forall p, n :: Edge(g, p, n) <==> Edge(h, p, n);
    }
    if o != t { LexLessAsymmetric(o, t); }
  }

  /** At each position `o` holds the smallest task whose dependencies are already placed. */
  ghost predicate Greedy(g: Graph, o: seq<Id>) {
    forall k {:trigger LeastAvailable(g, o[..k], o[k])} :: 0 <= k < |o| ==> LeastAvailable(g, o[..k], o[k])
  }

  ghost predicate LeastAvailable(g: Graph, prefix: seq<Id>, c: Id) {
    forall x :: x in g.deps && x !in prefix && DepsIn(g, prefix, x) ==> !Lt(x, c)
  }

  lemma TopologicalNext(g: Graph, t: seq<Id>, k: nat)
    requires Topological(g, t) && k < |t|
    ensures t[k] !in t[..k] && DepsIn(g, t[..k], t[k])
  {
    forall p | Edge(g, p, t[k])
      ensures p in t[..k]
    {
      var i :| 0 <= i < |t| && t[i] == p;
      assert Edge(g, t[i], t[k]);
      assert t[..k][i] == p;
    }
  }

  /** Greedy choice is enough for leastness: an exchange argument at the first difference. */
  lemma GreedyIsLeast(g: Graph, o: seq<Id>, t: seq<Id>)
    requires Topological(g, o) && Greedy(g, o) && Topological(g, t)
    ensures t == o || LexLess(o, t)
  {
    SameElements(o, t);
    if t != o {
      var k := FirstDifference(o, t);
      TopologicalNext(g, t, k);
      assert LeastAvailable(g, o[..k], o[k]);
      LtTotal(o[k], t[k]);
    }
  }

  lemma {:induction false} FirstDifference(a: seq<Id>, b: seq<Id>) returns (k: nat)
    requires |a| == |b| && a != b
    ensures k < |a| && a[..k] == b[..k] && a[k] != b[k]
  {
    if a[0] != b[0] {
      k := 0;
    } else {
      assert a == [a[0]] + a[1..] && b == [b[0]] + b[1..];
      var m := FirstDifference(a[1..], b[1..]);
      k := m + 1;
      assert a[..k] == [a[0]] + a[1..][..m] && b[..k] == [b[0]] + b[1..][..m];
    }
  }
}
