/**
  Bookkeeping behind the in-degree sort: what an in-degree counts, what the processed tasks
  have already paid back, and why a zero balance means that a task is unlocked.
 */
module KahnSpec {
  import opened Ids
  import opened GraphSpec

  /** Position of `x` in a list that holds it. */
  function Pos(s: seq<Id>, x: Id): (i: nat)
    requires x in s
    ensures i < |s| && s[i] == x
  {
    if s[0] == x then 0 else 1 + Pos(s[1..], x)
  }

  /** `Pos` is not moved by appending. */
  lemma {:induction false} PosAppend(s: seq<Id>, x: Id, y: Id)
    requires x in s
    ensures Pos(s + [y], x) == Pos(s, x)
  {
    if s[0] != x {
      PosAppend(s[1..], x, y);
      assert (s + [y])[1..] == s[1..] + [y];
    }
  }

  lemma {:induction false} PosDistinct(s: seq<Id>, i: nat)
    requires Distinct(s) && i < |s|
    ensures Pos(s, s[i]) == i
  {
    if i > 0 { PosDistinct(s[1..], i - 1); }
  }

  /** How often `n` stands in the `dependents` list of `p` after every `add_task`. */
  ghost function Credit(g: Graph, p: Id, n: Id): (c: nat)
    requires WellFormed(g) && p in g.deps && n in g.deps
  {
    if p !in g.deps[n] then 0
    else if Pos(g.ids, p) <= Pos(g.ids, n) then multiset(g.deps[n])[p]
    else 1
  }

  lemma CreditBound(g: Graph, p: Id, n: Id)
    requires WellFormed(g) && p in g.deps && n in g.deps
    ensures Credit(g, p, n) <= multiset(g.deps[n])[p]
    ensures Credit(g, p, n) > 0 <==> Edge(g, p, n)
  {
    assert p in g.deps[n] <==> p in multiset(g.deps[n]);
  }

  function Bit(b: bool): nat {
    if b then 1 else 0
  }

  ghost function Added(g: Graph, id: Id, deps: seq<Id>): Graph {
    Graph(g.ids + [id], g.deps[id := deps])
  }

  lemma AddedWellFormed(g: Graph, id: Id, deps: seq<Id>)
    requires WellFormed(g) && id !in g.deps
    ensures WellFormed(Added(g, id, deps))
  {
    var h := Added(g, id, deps);
    assert h.ids[|g.ids|] == id && forall i :: 0 <= i < |g.ids| ==> h.ids[i] == g.ids[i];
  }

  /** How adding a task changes the credits. */
  lemma CreditAdded(g: Graph, id: Id, deps: seq<Id>, p: Id, n: Id)
    requires WellFormed(g) && id !in g.deps && p in Added(g, id, deps).deps && n in Added(g, id, deps).deps
    ensures WellFormed(Added(g, id, deps))
    ensures Credit(Added(g, id, deps), p, n) ==
      if n == id then multiset(deps)[p] else if p == id then Bit(id in g.deps[n]) else Credit(g, p, n)
  {
    var h := Added(g, id, deps);
    assert h.ids[|g.ids|] == id && forall i :: 0 <= i < |g.ids| ==> h.ids[i] == g.ids[i];
    PosDistinct(h.ids, |g.ids|);
    if p != id { PosAppend(g.ids, p, id); }
    if n != id { PosAppend(g.ids, n, id); }
    assert p in deps <==> p in multiset(deps);
  }

  /** The dependencies of a list that exist in the graph. */
  function InGraph(deps: seq<Id>, keys: set<Id>): seq<Id> {
    if deps == [] then []
    else (if deps[0] in keys then [deps[0]] else []) + InGraph(deps[1..], keys)
  }

  lemma {:induction false} InGraphCount(deps: seq<Id>, keys: set<Id>, p: Id)
    ensures multiset(InGraph(deps, keys))[p] == if p in keys then multiset(deps)[p] else 0
  {
    if deps != [] {
      assert deps == [deps[0]] + deps[1..];
      InGraphCount(deps[1..], keys, p);
    }
  }

  /** Counted multiset of the in-graph dependencies of `m`. */
  ghost function Owed(g: Graph, m: Id): multiset<Id>
    requires m in g.deps
  {
    multiset(InGraph(g.deps[m], g.deps.Keys))
  }

  /** The part of `Owed(g, m)` that the processed tasks have decremented. */
  ghost function Paid(g: Graph, done: seq<Id>, m: Id): multiset<Id>
    requires WellFormed(g) && m in g.deps
    requires forall p :: p in done ==> p in g.deps
  {
    if done == [] then multiset{}
    else
      var last := done[|done| - 1];
      var before := done[..|done| - 1];
      assert forall p :: p in before ==> p in done;
      Paid(g, before, m) + multiset{}[last := Credit(g, last, m)]
  }

  lemma {:induction false} PaidCount(g: Graph, done: seq<Id>, m: Id, p: Id)
    requires WellFormed(g) && m in g.deps && Distinct(done)
    requires forall q :: q in done ==> q in g.deps
    ensures Paid(g, done, m)[p] == if p in done then Credit(g, p, m) else 0
  {
    if done != [] {
      var last := done[|done| - 1];
      var before := done[..|done| - 1];
      assert forall q :: q in before ==> q in done;
      assert done == before + [last];
      PaidCount(g, before, m, p);
    }
  }

  lemma PaidBound(g: Graph, done: seq<Id>, m: Id)
    requires WellFormed(g) && m in g.deps && Distinct(done)
    requires forall q :: q in done ==> q in g.deps
    ensures Paid(g, done, m) <= Owed(g, m)
    ensures |Paid(g, done, m)| <= |Owed(g, m)|
  {
    forall p
      ensures Paid(g, done, m)[p] <= Owed(g, m)[p]
    {
      PaidCount(g, done, m, p);
      InGraphCount(g.deps[m], g.deps.Keys, p);
      if p in g.deps { CreditBound(g, p, m); }
    }
    assert Owed(g, m) == Paid(g, done, m) + (Owed(g, m) - Paid(g, done, m));
  }

  /** The decrement that processing `c` causes. */
  lemma PaidStep(g: Graph, done: seq<Id>, c: Id, m: Id)
    requires WellFormed(g) && m in g.deps && c in g.deps && c !in done && Distinct(done)
    requires forall q :: q in done ==> q in g.deps
    ensures forall q :: q in done + [c] ==> q in g.deps
    ensures |Paid(g, done + [c], m)| == |Paid(g, done, m)| + Credit(g, c, m)
    ensures Credit(g, c, m) <= |Owed(g, m)| - |Paid(g, done, m)|
  {
    assert (done + [c])[..|done|] == done;
    PaidBound(g, done + [c], m);
  }

  /** Every in-graph dependency of `x` is done and was listed as often as it is owed. */
  ghost predicate Unlocked(g: Graph, done: seq<Id>, x: Id)
    requires WellFormed(g) && x in g.deps
  {
    forall p :: Edge(g, p, x) ==> p in done && Credit(g, p, x) == multiset(g.deps[x])[p]
  }

  lemma ZeroIffUnlocked(g: Graph, done: seq<Id>, x: Id)
    requires WellFormed(g) && x in g.deps && Distinct(done)
    requires forall q :: q in done ==> q in g.deps
    ensures |Owed(g, x)| == |Paid(g, done, x)| <==> Unlocked(g, done, x)
  {
    PaidBound(g, done, x);
    SameCard(Paid(g, done, x), Owed(g, x));
    if Paid(g, done, x) == Owed(g, x) {
      forall p | Edge(g, p, x)
        ensures p in done && Credit(g, p, x) == multiset(g.deps[x])[p]
      {
        OwedAndPaid(g, done, x, p);
      }
    } else {
      var p :| Paid(g, done, x)[p] != Owed(g, x)[p];
      OwedAndPaid(g, done, x, p);
      assert Edge(g, p, x);
    }
  }

  lemma SameCard(paid: multiset<Id>, owed: multiset<Id>)
    requires paid <= owed
    ensures |owed| == |paid| <==> paid == owed
  {
    assert owed == paid + (owed - paid);
  }

  lemma OwedAndPaid(g: Graph, done: seq<Id>, x: Id, p: Id)
    requires WellFormed(g) && x in g.deps && Distinct(done)
    requires forall q :: q in done ==> q in g.deps
    ensures Owed(g, x)[p] == (if p in g.deps then multiset(g.deps[x])[p] else 0)
    ensures Paid(g, done, x)[p] == (if p in done then Credit(g, p, x) else 0)
    ensures p in g.deps && p !in g.deps[x] ==> Credit(g, p, x) == 0
    ensures Edge(g, p, x) ==> Owed(g, x)[p] > 0
  {
    PaidCount(g, done, x, p);
    InGraphCount(g.deps[x], g.deps.Keys, p);
    if p in g.deps { CreditBound(g, p, x); }
  }

  /** Without a late repeat, the counts match and only the dependencies themselves matter. */
  lemma UnlockedIffDepsIn(g: Graph, done: seq<Id>, x: Id)
    requires WellFormed(g) && x in g.deps && !LateRepeat(g)
    ensures Unlocked(g, done, x) <==> DepsIn(g, done, x)
  {
    forall p | Edge(g, p, x)
      ensures Credit(g, p, x) == multiset(g.deps[x])[p]
    {
      assert g.ids[Pos(g.ids, x)] == x && g.ids[Pos(g.ids, p)] == p;
      CreditBound(g, p, x);
    }
  }

  /** Position `k` of `o` was unlocked by the tasks before it, and was the least such choice. */
  ghost predicate Choice(g: Graph, o: seq<Id>, k: nat)
    requires WellFormed(g) && k < |o| && o[k] in g.deps
  {
    && Unlocked(g, o[..k], o[k])
    && forall x :: x in g.deps && x !in o[..k] && Unlocked(g, o[..k], x) ==> !Lt(x, o[k])
  }

  ghost predicate Run(g: Graph, o: seq<Id>)
    requires WellFormed(g)
  {
    && Distinct(o)
    && (forall x :: x in o ==> x in g.deps)
    && forall k {:trigger Choice(g, o, k)} :: 0 <= k < |o| ==> Choice(g, o, k)
  }

  lemma RunExtend(g: Graph, o: seq<Id>, c: Id)
    requires WellFormed(g) && Run(g, o) && c in g.deps && c !in o && Unlocked(g, o, c)
    requires forall x :: x in g.deps && x !in o && Unlocked(g, o, x) ==> !Lt(x, c)
    ensures Run(g, o + [c])
  {
    var r := o + [c];
    assert r[..|o|] == o;
    forall k | 0 <= k < |r|
      ensures Choice(g, r, k)
    {
      if k < |o| {
        assert Choice(g, o, k);
        assert r[..k] == o[..k] && r[k] == o[k];
      }
    }
  }

  /** A run that places a task shows that none of its dependencies is repeated and late. */
  lemma RunNoLateRepeat(g: Graph, o: seq<Id>)
    requires WellFormed(g) && Run(g, o) && forall x :: x in g.deps ==> x in o
    ensures !LateRepeat(g)
  {
    forall i, j | 0 <= i < j < |g.ids| && g.ids[i] in g.deps
      ensures multiset(g.deps[g.ids[i]])[g.ids[j]] < 2
    {
      var x, p := g.ids[i], g.ids[j];
      var k :| 0 <= k < |o| && o[k] == x;
      assert Choice(g, o, k);
      PosDistinct(g.ids, i);
      PosDistinct(g.ids, j);
      CreditBound(g, p, x);
    }
  }

  /** A run over all tasks is the least topological order, and the graph has no late repeat. */
  lemma CompleteRun(g: Graph, o: seq<Id>)
    requires WellFormed(g) && Run(g, o) && forall x :: x in g.deps ==> x in o
    ensures SortResult(g, o)
  {
    RunNoLateRepeat(g, o);
    assert Topological(g, o) by {
      forall i, j | 0 <= i < |o| && 0 <= j < |o| && Edge(g, o[i], o[j])
        ensures i < j
      {
        assert Choice(g, o, j);
        assert o[i] in o[..j];
      }
    }
    forall k, x | 0 <= k < |o| && x in g.deps && x !in o[..k] && DepsIn(g, o[..k], x)
      ensures !Lt(x, o[k])
    {
      assert Choice(g, o, k);
      UnlockedIffDepsIn(g, o[..k], x);
    }
    forall t | Topological(g, t)
      ensures t == o || LexLess(o, t)
    {
      GreedyIsLeast(g, o, t);
    }
  }

  /** A stuck run on an acyclic graph can only be the fault of a late repeat. */
  lemma {:induction false} StuckRun(g: Graph, o: seq<Id>, t: seq<Id>, k: nat)
    requires WellFormed(g) && Topological(g, t) && !LateRepeat(g)
    requires forall x :: x in g.deps && Unlocked(g, o, x) ==> x in o
    requires k <= |t|
    ensures forall i :: 0 <= i < k ==> t[i] in o
  {
    if k > 0 {
      StuckRun(g, o, t, k - 1);
      var x := t[k - 1];
      assert DepsIn(g, o, x) by {
        forall p | Edge(g, p, x)
          ensures p in o
        {
          var i :| 0 <= i < |t| && t[i] == p;
          assert Edge(g, t[i], t[k - 1]);
        }
      }
      UnlockedIffDepsIn(g, o, x);
    }
  }

  /** In-degrees are the unpaid debts. */
  ghost predicate Balanced(g: Graph, result: seq<Id>, inDegree: map<Id, int>)
    requires WellFormed(g) && forall x :: x in result ==> x in g.deps
  {
    inDegree.Keys == g.deps.Keys &&
    forall m :: m in g.deps ==> inDegree[m] == |Owed(g, m)| - |Paid(g, result, m)|
  }

  /** The queue holds exactly the unprocessed tasks whose in-degree is zero. */
  ghost predicate Queued(result: seq<Id>, queue: seq<Id>, inDegree: map<Id, int>) {
    && Distinct(queue)
    && (forall x :: x in result ==> x in inDegree && inDegree[x] == 0)
    && forall x :: x in queue <==> x in inDegree && x !in result && inDegree[x] == 0
  }

  /** The loop invariant of the sort. */
  ghost predicate SortState(g: Graph, result: seq<Id>, queue: seq<Id>, inDegree: map<Id, int>) {
    WellFormed(g) && Run(g, result) && Balanced(g, result, inDegree) && Queued(result, queue, inDegree)
  }

  /** Everything a task owes to `c` is still counted in its in-degree. */
  lemma BalancedCovers(g: Graph, result: seq<Id>, inDegree: map<Id, int>, c: Id)
    requires WellFormed(g) && Distinct(result) && (forall x :: x in result ==> x in g.deps)
    requires Balanced(g, result, inDegree) && c in g.deps && c !in result
    ensures forall m :: m in g.deps ==> Credit(g, c, m) <= inDegree[m]
  {
    forall m | m in g.deps
      ensures Credit(g, c, m) <= inDegree[m]
    {
      PaidStep(g, result, c, m);
    }
  }

  lemma BalancedStep(g: Graph, result: seq<Id>, inDegree: map<Id, int>, c: Id, inDegree': map<Id, int>)
    requires WellFormed(g) && Distinct(result) && (forall x :: x in result ==> x in g.deps)
    requires Balanced(g, result, inDegree) && c in g.deps && c !in result
    requires inDegree'.Keys == g.deps.Keys
    requires forall m :: m in g.deps ==> inDegree'[m] == inDegree[m] - Credit(g, c, m)
    ensures Balanced(g, result + [c], inDegree')
  {
    forall m | m in g.deps
      ensures inDegree'[m] == |Owed(g, m)| - |Paid(g, result + [c], m)|
    {
      PaidStep(g, result, c, m);
    }
  }

  /** The head of the sorted queue extends the run. */
  lemma RunStep(g: Graph, result: seq<Id>, queue: seq<Id>, inDegree: map<Id, int>, c: Id)
    requires SortState(g, result, queue, inDegree) && c in queue
    requires forall x :: x in queue ==> !Lt(x, c)
    ensures Run(g, result + [c])
  {
    forall x | x in g.deps
      ensures inDegree[x] == 0 <==> Unlocked(g, result, x)
    {
      ZeroIffUnlocked(g, result, x);
    }
    RunExtend(g, result, c);
  }

  lemma SortStateStep(g: Graph, result: seq<Id>, queue: seq<Id>, inDegree: map<Id, int>,
                      rest: seq<Id>, c: Id, queue': seq<Id>, inDegree': map<Id, int>)
    requires SortState(g, result, queue, inDegree)
    requires c !in rest && forall x :: x in queue <==> x == c || x in rest
    requires forall x :: x in queue ==> !Lt(x, c)
    requires inDegree'.Keys == g.deps.Keys && Distinct(queue')
    requires forall m :: m in g.deps ==> inDegree'[m] == inDegree[m] - Credit(g, c, m)
    requires forall x :: x in queue' <==> x in inDegree && (x in rest || inDegree[x] > inDegree'[x] == 0)
    ensures SortState(g, result + [c], queue', inDegree')
  {
    RunStep(g, result, queue, inDegree, c);
    BalancedCovers(g, result, inDegree, c);
    BalancedStep(g, result, inDegree, c, inDegree');
    QueuedStep(result, queue, inDegree, rest, c, queue', inDegree');
  }

  lemma QueuedStep(result: seq<Id>, queue: seq<Id>, inDegree: map<Id, int>,
                   rest: seq<Id>, c: Id, queue': seq<Id>, inDegree': map<Id, int>)
    requires Queued(result, queue, inDegree)
    requires c !in rest && forall x :: x in queue <==> x == c || x in rest
    requires inDegree'.Keys == inDegree.Keys && Distinct(queue')
    requires forall m :: m in inDegree ==> inDegree'[m] <= inDegree[m]
    requires forall m :: m in inDegree && inDegree[m] == 0 ==> inDegree'[m] == 0
    requires forall x :: x in queue' <==> x in inDegree && (x in rest || inDegree[x] > inDegree'[x] == 0)
    ensures Queued(result + [c], queue', inDegree')
  {
  }

  lemma SortStateStart(g: Graph, queue: seq<Id>, inDegree: map<Id, int>)
    requires WellFormed(g) && inDegree.Keys == g.deps.Keys && Distinct(queue)
    requires forall m :: m in g.deps ==> inDegree[m] == |InGraph(g.deps[m], g.deps.Keys)|
    requires forall x :: x in queue <==> x in g.deps && inDegree[x] == 0
    ensures SortState(g, [], queue, inDegree)
  {
    forall m | m in g.deps
      ensures |Owed(g, m)| == inDegree[m]
    {
      assert |multiset(InGraph(g.deps[m], g.deps.Keys))| == |InGraph(g.deps[m], g.deps.Keys)|;
    }
  }

  /** With the queue empty, either every task is placed and `result` is the sort, or a late
      repeat is to blame, since the graph has some topological order. */
  lemma SortStateEnd(g: Graph, result: seq<Id>, inDegree: map<Id, int>)
    requires SortState(g, result, [], inDegree) && exists o :: Topological(g, o)
    ensures |result| == |g.ids| ==> SortResult(g, result)
    ensures |result| != |g.ids| ==> LateRepeat(g)
  {
    if |result| == |g.ids| {
      SameLength(result, g.ids);
      CompleteRun(g, result);
    } else if !LateRepeat(g) {
      UnlockedIsPlaced(g, result, inDegree);
      SameElements(result, g.ids);
    }
  }

  lemma UnlockedIsPlaced(g: Graph, result: seq<Id>, inDegree: map<Id, int>)
    requires SortState(g, result, [], inDegree) && exists o :: Topological(g, o)
    requires !LateRepeat(g)
    ensures forall x :: x in g.deps ==> x in result
  {
    var o :| Topological(g, o);
    forall x | x in g.deps
      ensures Unlocked(g, result, x) ==> x in result
    {
      ZeroIffUnlocked(g, result, x);
    }
    StuckRun(g, result, o, |o|);
  }

  lemma RunFits(g: Graph, result: seq<Id>)
    requires WellFormed(g) && Run(g, result)
    ensures |result| <= |g.deps|
  {
    DistinctCard(result);
    SubsetCard((set x | x in result), g.deps.Keys);
  }
}
