/**
  The task graph: nodes with mirrored `dependencies` / `dependents` lists, a guarded status
  machine, cycle detection, the deterministic topological sort with its cache, and the
  propagation of failures.
 */
module TaskGraphs {
  import opened Options
  import opened Ids
  import opened GraphSpec
  import opened KahnSpec

  datatype TaskStatus = Pending | Ready | Running | Completed | Failed | Skipped | Blocked {

    /** The transition table of a task node. */
    predicate Allows(next: TaskStatus) {
      match this
      case Pending => next in {Ready, Running, Skipped, Blocked}
      case Ready => next in {Running, Skipped, Blocked}
      case Running => next in {Completed, Failed}
      case _ => false
    }

    predicate Terminal() {
      this in {Completed, Failed, Skipped, Blocked}
    }
  }

  /** The nine transitions; terminal are exactly the statuses that none of them leaves. */
  lemma TransitionTable(s: TaskStatus, t: TaskStatus)
    ensures s.Allows(t) <==>
      || (s == Pending && (t == Ready || t == Running || t == Skipped || t == Blocked))
      || (s == Ready && (t == Running || t == Skipped || t == Blocked))
      || (s == Running && (t == Completed || t == Failed))
    ensures s.Terminal() <==> forall u: TaskStatus :: !s.Allows(u)
  {
    assert Pending.Allows(Running) && Ready.Allows(Running) && Running.Allows(Completed);
  }

  /** What an operation that may raise reports. */
  datatype Outcome = Done | Raised

  class TaskNode {
    const id: Id
    const dependencies: seq<Id>
    var dependents: seq<Id>
    var status: TaskStatus

    constructor (id: Id, dependencies: seq<Id>)
      ensures this.id == id && this.dependencies == dependencies
      ensures dependents == [] && status == Pending
    {
      this.id := id;
      this.dependencies := dependencies;
      dependents := [];
      status := Pending;
    }

    /** Restores a node from serialized data. */
    constructor Restore(data: NodeData)
      ensures Shows(data)
    {
      this.id := data.id;
      this.dependencies := data.dependencies;
      dependents := data.dependents;
      status := data.status;
    }

    ghost predicate Shows(data: NodeData)
      reads this
    {
      id == data.id && dependencies == data.dependencies && dependents == data.dependents && status == data.status
    }

    method TransitionTo(next: TaskStatus) returns (o: Outcome)
      modifies this`status
      ensures o.Done? <==> old(status).Allows(next)
      ensures status == if o.Done? then next else old(status)
    {
      if !status.Allows(next) { return Raised; }
      status := next;
      return Done;
    }
  }

  datatype NodeData = NodeData(id: Id, dependencies: seq<Id>, dependents: seq<Id>, status: TaskStatus)

  /** `to_dict`: the node dictionary with its key order, and the cached execution order. */
  datatype Snapshot = Snapshot(keys: seq<Id>, nodes: map<Id, NodeData>, executionOrder: Option<seq<Id>>)

  datatype Color = White | Gray | Black

  /** Result of `topological_sort`: an order, or one of its two raises. */
  datatype SortOutcome = Order(order: seq<Id>) | CycleDetected | NotAllProcessed

  /** `topological_sort` raises its cycle error exactly on cyclic graphs, its second error exactly
      on acyclic graphs with a late repeat, and otherwise returns the least topological order. */
  ghost predicate SortSpec(g: Graph, r: SortOutcome) {
    && (r.CycleDetected? <==> Cyclic(g))
    && (r.NotAllProcessed? <==> !Cyclic(g) && LateRepeat(g))
    && (r.Order? ==> LeastTopological(g, r.order))
  }

  /** Wherever a returned order has no dependency between two neighbours, they stand in code-point order. */
  lemma SortedNeighbours(g: Graph, r: SortOutcome, i: nat)
    requires SortSpec(g, r) && r.Order? && i + 1 < |r.order| && r.order[i] !in g.deps[r.order[i + 1]]
    ensures Before(r.order[i], r.order[i + 1])
  {
    NeighboursAscend(g, r.order, i);
  }

  lemma SortResultMeetsSpec(g: Graph, o: seq<Id>)
    requires SortResult(g, o)
    ensures SortSpec(g, Order(o))
  {
    TopologicalAcyclic(g, o);
  }

  /** For duplicate-free lists the outcome of the sort does not depend on insertion order. */
  lemma InsertionOrderIrrelevant(g: Graph, h: Graph, r: SortOutcome, t: SortOutcome)
    requires g.deps == h.deps && DuplicateFree(g) && SortSpec(g, r) && SortSpec(h, t)
    ensures r == t
  {
    DuplicateFreeNoLateRepeat(g);
    DuplicateFreeNoLateRepeat(h);
    SameEdgesSameCycles(g, h);
    if r.Order? {
      LeastTopologicalUnique(g, h, r.order, t.order);
    }
  }

  lemma SameEdgesSameCycles(g: Graph, h: Graph)
    requires g.deps == h.deps
    ensures Cyclic(g) <==> Cyclic(h)
  {
    assert forall p, n :: Edge(g, p, n) <==> Edge(h, p, n);
    assert forall c :: IsCycle(g, c) <==> IsCycle(h, c);
  }

  /** With a repeated dependency it does: the same two tasks sort when the dependency is added
      first, and the sort raises its second error when it is added last. */
  lemma LateRepeatRaises(deps: map<Id, seq<Id>>, late: SortOutcome, early: SortOutcome)
    requires deps == map["a" := ["b", "b"], "b" := []]
    requires SortSpec(Graph(["a", "b"], deps), late) && SortSpec(Graph(["b", "a"], deps), early)
    ensures late == NotAllProcessed && early == Order(["b", "a"])
  {
    var g, h := Graph(["a", "b"], deps), Graph(["b", "a"], deps);
    assert LateRepeat(g) by { assert g.ids[0] == "a" && multiset(g.deps["a"])[g.ids[1]] >= 2; }
    assert !LateRepeat(h) by { assert multiset(h.deps["b"])["a"] == 0; }
    TwoTasks(g);
    TwoTasks(h);
    TopologicalAcyclic(g, ["b", "a"]);
    TopologicalAcyclic(h, ["b", "a"]);
    TwoTasksOrder(h, early.order);
  }

  lemma TwoTasks(g: Graph)
    requires g.deps == map["a" := ["b", "b"], "b" := []]
    ensures Topological(g, ["b", "a"])
  {
    assert "a"[0] != "b"[0];
  }

  lemma TwoTasksOrder(g: Graph, o: seq<Id>)
    requires g.deps == map["a" := ["b", "b"], "b" := []] && Topological(g, o)
    ensures o == ["b", "a"]
  {
    TwoTasks(g);
    SameElements(o, ["b", "a"]);
    assert Edge(g, "b", "a");
    var i, j :| 0 <= i < |o| && 0 <= j < |o| && o[i] == "b" && o[j] == "a";
    assert Edge(g, o[i], o[j]);
  }

  /** Status after `blocked` tasks have been marked. */
  function MarkBlocked(st: map<Id, TaskStatus>, blocked: set<Id>): map<Id, TaskStatus> {
    map x | x in st :: if x in blocked then Blocked else st[x]
  }

  /** A dependents path from `from` whose nodes after the first are all PENDING in `st`. */
  ghost predicate PendingPath(g: Graph, st: map<Id, TaskStatus>, p: seq<Id>) {
    IsPath(g, p) && |p| >= 2 && forall i :: 1 <= i < |p| ==> p[i] in st && st[p[i]] == Pending
  }

  ghost predicate PendingReachable(g: Graph, st: map<Id, TaskStatus>, from: Id, to: Id) {
    exists p :: PendingPath(g, st, p) && p[0] == from && p[|p| - 1] == to
  }

  lemma PendingStep(g: Graph, st: map<Id, TaskStatus>, from: Id, mid: Id, to: Id)
    requires mid == from || PendingReachable(g, st, from, mid)
    requires Edge(g, mid, to) && to in st && st[to] == Pending
    ensures PendingReachable(g, st, from, to)
  {
    if mid == from {
      assert PendingPath(g, st, [from, to]);
    }
    if PendingReachable(g, st, from, mid) {
      var p :| PendingPath(g, st, p) && p[0] == from && p[|p| - 1] == mid;
      assert PendingPath(g, st, p + [to]);
    }
  }

  /** A set closed under pending steps from `from` holds everything pending-reachable from it. */
  lemma {:induction false} PendingClosure(g: Graph, st: map<Id, TaskStatus>, closed: set<Id>, p: seq<Id>)
    requires PendingPath(g, st, p)
    requires forall m, n :: (m == p[0] || m in closed) && Edge(g, m, n) && n in st && st[n] == Pending ==> n in closed
    ensures p[|p| - 1] in closed
    decreases |p|
  {
    assert Edge(g, p[|p| - 2], p[|p| - 1]);
    if |p| > 2 {
      PendingClosure(g, st, closed, p[..|p| - 1]);
    }
  }

  /** The invariant of the depth-first search: gray tasks form the current path, black ones are
      finished, newest first, and only have finished dependents behind them. */
  ghost predicate SearchState(g: Graph, colors: map<Id, Color>, path: seq<Id>, done: seq<Id>) {
    && colors.Keys == g.deps.Keys
    && (forall x :: x in path <==> x in colors && colors[x] == Gray)
    && (forall x :: x in done <==> x in colors && colors[x] == Black)
    && (path == [] || IsPath(g, path))
    && Distinct(done)
    && forall i, n :: 0 <= i < |done| && Edge(g, done[i], n) ==> n in done[i + 1..]
  }

  /** Pushing a white task that the path leads to. */
  lemma SearchPush(g: Graph, colors: map<Id, Color>, path: seq<Id>, done: seq<Id>, x: Id)
    requires SearchState(g, colors, path, done) && x in colors && colors[x] == White
    requires path == [] || Edge(g, path[|path| - 1], x)
    ensures SearchState(g, colors[x := Gray], path + [x], done)
  {
    var p := path + [x];
    assert forall i :: 0 <= i < |path| ==> p[i] == path[i];
  }

  /** Finishing the task at the end of the path once all its dependents are finished. */
  lemma SearchFinish(g: Graph, colors: map<Id, Color>, path: seq<Id>, done: seq<Id>, x: Id)
    requires SearchState(g, colors, path + [x], done) && x !in path
    requires forall n :: Edge(g, x, n) ==> n in done
    ensures SearchState(g, colors[x := Black], path, [x] + done)
  {
    var d := [x] + done;
    var p := path + [x];
    assert x in p;
    forall y
      ensures y in path <==> y in colors && y != x && colors[y] == Gray
    {
      assert y in p <==> y in path || y == x;
    }
    assert path == [] || IsPath(g, path) by {
      assert forall i :: 0 <= i < |path| ==> p[i] == path[i];
    }
    forall i, n | 0 <= i < |d| && Edge(g, d[i], n)
      ensures n in d[i + 1..]
    {
      if i == 0 {
        assert d[1..] == done;
      } else {
        assert d[i] == done[i - 1] && d[i + 1..] == done[i..];
      }
    }
  }

  /** A dependent that is already on the path closes a cycle. */
  lemma SearchCycle(g: Graph, path: seq<Id>, x: Id)
    requires IsPath(g, path) && x in path && Edge(g, path[|path| - 1], x)
    ensures Cyclic(g)
  {
    var i :| 0 <= i < |path| && path[i] == x;
    var c := path[i..] + [x];
    assert forall k :: 0 <= k < |path| - i ==> c[k] == path[i + k];
    assert IsCycle(g, c);
  }

  /** When everything is black, the finishing order is topological. */
  lemma SearchComplete(g: Graph, colors: map<Id, Color>, done: seq<Id>)
    requires SearchState(g, colors, [], done) && forall x :: x in colors ==> colors[x] == Black
    ensures Topological(g, done)
  {
    forall i, j | 0 <= i < |done| && 0 <= j < |done| && Edge(g, done[i], done[j])
      ensures i < j
    {
      var k :| 0 <= k < |done[i + 1..]| && done[i + 1..][k] == done[j];
      assert done[i + 1 + k] == done[j];
    }
  }

  function Whites(colors: map<Id, Color>): set<Id> {
    set x | x in colors && colors[x] == White
  }

  /** Fewer white tasks, and what was finished stays finished. */
  ghost predicate Advanced(c0: map<Id, Color>, done0: seq<Id>, c1: map<Id, Color>, done1: seq<Id>) {
    Whites(c1) < Whites(c0) && forall y :: y in done0 ==> y in done1
  }

  /** Decrements the in-degree of every task listed in `dependents`; one that reaches zero is
      queued. */
  method Release(dependents: seq<Id>, inDegree: map<Id, int>, queue: seq<Id>)
    returns (inDegree': map<Id, int>, queue': seq<Id>)
    requires forall m :: m in inDegree ==> multiset(dependents)[m] <= inDegree[m]
    requires Distinct(queue) && forall x :: x in queue ==> x in inDegree && inDegree[x] == 0
    ensures inDegree'.Keys == inDegree.Keys && Distinct(queue')
    ensures forall m :: m in inDegree ==> inDegree'[m] == inDegree[m] - multiset(dependents)[m]
    ensures forall x :: x in queue' <==> x in inDegree && (x in queue || inDegree[x] > inDegree'[x] == 0)
  {
    inDegree', queue' := inDegree, queue;
    for k := 0 to |dependents|
      invariant inDegree'.Keys == inDegree.Keys && Distinct(queue')
      invariant forall m :: m in inDegree ==> inDegree'[m] == inDegree[m] - multiset(dependents[..k])[m]
      invariant forall x :: x in queue' <==> x in inDegree && (x in queue || inDegree[x] > inDegree'[x] == 0)
    {
      var d := dependents[k];
      assert dependents[..k + 1] == dependents[..k] + [d];
      CountPrefix(dependents, k + 1, d);
      if d in inDegree' {
        inDegree' := inDegree'[d := inDegree'[d] - 1];
        if inDegree'[d] == 0 {
          queue' := queue' + [d];
        }
      }
    }
    assert dependents[..|dependents|] == dependents;
  }

  lemma CountPrefix(s: seq<Id>, k: nat, x: Id)
    requires k <= |s|
    ensures multiset(s[..k])[x] <= multiset(s)[x]
  {
    assert s == s[..k] + s[k..];
  }

  /** How often `n` is listed under `p`. */
  ghost function Count(s: map<Id, seq<Id>>, p: Id, n: Id): nat
    requires p in s
  {
    multiset(s[p])[n]
  }

  /** The lists `s` mirror the dependency lists of `g`, each entry with its multiplicity. */
  ghost predicate Mirrors(g: Graph, s: map<Id, seq<Id>>) {
    && WellFormed(g) && s.Keys == g.deps.Keys
    && forall p, n {:trigger MirrorEntry(g, s, p, n)} :: p in s ==> MirrorEntry(g, s, p, n)
  }

  ghost predicate MirrorEntry(g: Graph, s: map<Id, seq<Id>>, p: Id, n: Id)
    requires WellFormed(g) && s.Keys == g.deps.Keys && p in s
  {
    Count(s, p, n) == if n in g.deps then Credit(g, p, n) else 0
  }

  lemma MirrorsAt(g: Graph, s: map<Id, seq<Id>>, c: Id)
    requires Mirrors(g, s) && c in g.deps
    ensures forall m :: m in g.deps ==> multiset(s[c])[m] == Credit(g, c, m)
  {
    forall m | m in g.deps
      ensures multiset(s[c])[m] == Credit(g, c, m)
    {
      assert MirrorEntry(g, s, c, m);
    }
  }

  /** `id` was appended to the list of each entry of `deps`. */
  ghost predicate Appended(s0: map<Id, seq<Id>>, s1: map<Id, seq<Id>>, id: Id, deps: seq<Id>) {
    s0.Keys == s1.Keys &&
    forall p, n :: p in s0 ==> Count(s1, p, n) == Count(s0, p, n) + if n == id then multiset(deps)[p] else 0
  }

  lemma AppendedStep(s0: map<Id, seq<Id>>, s1: map<Id, seq<Id>>, id: Id, deps: seq<Id>, d: Id)
    requires Appended(s0, s1, id, deps)
    ensures Appended(s0, if d in s1 then s1[d := s1[d] + [id]] else s1, id, deps + [d])
  {
  }

  lemma AppendedSelf(s0: map<Id, seq<Id>>, s1: map<Id, seq<Id>>, id: Id, deps: seq<Id>)
    requires Appended(s0, s1, id, deps) && id in s0 && s0[id] == []
    ensures id in deps ==> id in s1[id]
    ensures forall x :: x in s1[id] ==> x == id
  {
    assert id in deps ==> id in multiset(deps);
    assert Count(s1, id, id) == multiset(deps)[id];
    forall x | x in s1[id]
      ensures x == id
    {
      assert x in multiset(s1[id]);
      assert Count(s1, id, x) > 0;
    }
  }

  /** The two loops of `add_task` extend the mirror. */
  lemma MirrorsAdded(g: Graph, s: map<Id, seq<Id>>, s1: map<Id, seq<Id>>, s2: map<Id, seq<Id>>, id: Id, deps: seq<Id>)
    requires Mirrors(g, s) && id !in g.deps && Appended(s[id := []], s1, id, deps)
    requires id in s2 && s2 == s1[id := s2[id]]
    requires multiset(s2[id])[id] == multiset(s1[id])[id]
    requires forall n :: n != id ==> multiset(s2[id])[n] == Bit(n in g.deps && id in g.deps[n])
    ensures Mirrors(Added(g, id, deps), s2)
  {
    var h := Added(g, id, deps);
    AddedWellFormed(g, id, deps);
    forall p, n | p in s2
      ensures MirrorEntry(h, s2, p, n)
    {
      if n in h.deps { CreditAdded(g, id, deps, p, n); }
      assert Count(s1, p, n) == Count(s[id := []], p, n) + if n == id then multiset(deps)[p] else 0;
      if p != id {
        assert MirrorEntry(g, s, p, n);
      }
    }
  }

  function Elements(s: seq<Id>): set<Id> {
    set x | x in s
  }

  /** Invariant of the failure propagation from `from` in status map `st`. */
  ghost predicate BlockState(g: Graph, st: map<Id, TaskStatus>, from: Id, visited: set<Id>, blocked: seq<Id>) {
    && Distinct(blocked)
    && (forall b :: b in blocked ==> b in visited && b in st && st[b] == Pending && PendingReachable(g, st, from, b))
    && forall v :: v in visited && v in st && st[v] == Pending ==> v in blocked
  }

  ghost predicate AllVisited(g: Graph, b: Id, visited: set<Id>) {
    forall n :: Edge(g, b, n) ==> n in visited
  }

  /** Nothing is forgotten, and all dependents of the newly blocked tasks have been visited. */
  ghost predicate Followed(g: Graph, visited: set<Id>, blocked: seq<Id>, visited': set<Id>, blocked': seq<Id>) {
    && visited <= visited' && blocked <= blocked'
    && forall b :: b in blocked' && b !in blocked ==> AllVisited(g, b, visited')
  }

  lemma FollowedStep(g: Graph, d: Id, visited: set<Id>, blocked: seq<Id>,
                     v1: set<Id>, b1: seq<Id>, v2: set<Id>, b2: seq<Id>)
    requires Followed(g, visited, blocked, v1, b1)
    requires Followed(g, v1 + {d}, b1 + [d], v2, b2) && AllVisited(g, d, v2)
    ensures Followed(g, visited, blocked, v2, b2)
  {
    assert b1 <= b1 + [d];
    forall b | b in b2 && b !in blocked
      ensures AllVisited(g, b, v2)
    {
      if b in b1 {
        assert AllVisited(g, b, v1);
      } else if b != d {
        assert b !in b1 + [d];
      }
    }
  }

  lemma BlockStateVisit(g: Graph, st: map<Id, TaskStatus>, from: Id, id: Id, d: Id, visited: set<Id>, blocked: seq<Id>)
    requires BlockState(g, st, from, visited, blocked) && (id == from || id in blocked)
    requires d !in visited && Edge(g, id, d) && d in st
    ensures st[d] == Pending ==> BlockState(g, st, from, visited + {d}, blocked + [d])
    ensures st[d] != Pending ==> BlockState(g, st, from, visited + {d}, blocked)
  {
    if st[d] == Pending {
      PendingStep(g, st, from, id, d);
    }
  }

  class TaskGraph {
    /** The keys of the node dictionary, in insertion order. */
    var ids: seq<Id>
    var nodes: map<Id, TaskNode>
    var executionOrder: Option<seq<Id>>
    ghost var repr: set<TaskNode>

    /** Every node is filed under its own identifier. */
    ghost predicate Keyed()
      reads this`nodes, this`repr
    {
      forall x :: x in nodes ==> nodes[x].id == x && nodes[x] in repr
    }

    ghost function View(): Graph
      reads this`ids, this`nodes
    {
      Graph(ids, map x | x in nodes :: nodes[x].dependencies)
    }

    ghost function Statuses(): map<Id, TaskStatus>
      reads this`nodes, this`repr, repr`status
    {
      map x | x in nodes && nodes[x] in repr :: nodes[x].status
    }

    ghost predicate Shape()
      reads this`ids, this`nodes, this`repr
    {
      WellFormed(View()) && Keyed()
    }

    /** The `dependents` lists. */
    ghost function Succs(): map<Id, seq<Id>>
      reads this`nodes, this`repr, repr`dependents
    {
      map x | x in nodes && nodes[x] in repr :: nodes[x].dependents
    }

    ghost predicate Mirrored(g: Graph)
      reads this`nodes, this`repr, repr`dependents
    {
      Mirrors(g, Succs())
    }

    ghost predicate Valid()
      reads this, repr`dependents
    {
      Shape() && Mirrored(View()) && (executionOrder.Some? ==> SortSpec(View(), Order(executionOrder.value)))
    }

    constructor ()
      ensures Valid() && nodes == map[] && ids == [] && executionOrder == None && repr == {}
    {
      ids, nodes, executionOrder, repr := [], map[], None, {};
    }

    lemma DependentIsEdge(p: Id, n: Id)
      requires Valid() && p in nodes
      ensures n in nodes[p].dependents <==> Edge(View(), p, n)
    {
      var s := Succs();
      assert MirrorEntry(View(), s, p, n);
      assert n in s[p] <==> Count(s, p, n) > 0;
      if n in nodes { CreditBound(View(), p, n); }
    }

    /** The `dependents` lists hold exactly the edges of `g`. */
    ghost predicate Linked(g: Graph)
      reads this`ids, this`nodes, this`repr, repr`dependents
    {
      && nodes.Keys == g.deps.Keys
      && (forall x :: x in ids <==> x in nodes)
      && Keyed()
      && forall p, n :: p in nodes && nodes[p] in repr ==> (n in nodes[p].dependents <==> Edge(g, p, n))
    }

    lemma ValidLinked()
      requires Valid()
      ensures Linked(View())
    {
      forall p, n | p in nodes
        ensures n in nodes[p].dependents <==> Edge(View(), p, n)
      {
        DependentIsEdge(p, n);
      }
    }

    /** Three-colour depth-first search below `x`, which is white. */
    method Search(colors: map<Id, Color>, x: Id, ghost g: Graph, ghost path: seq<Id>, ghost done: seq<Id>)
      returns (found: bool, colors': map<Id, Color>, ghost done': seq<Id>)
      requires Linked(g) && SearchState(g, colors, path, done)
      requires x in colors && colors[x] == White
      requires path == [] || Edge(g, path[|path| - 1], x)
      ensures found ==> Cyclic(g)
      ensures !found ==> SearchState(g, colors', path, done') && x in done'
      ensures !found ==> Advanced(colors, done, colors', done')
      decreases Whites(colors)
    {
      colors' := colors[x := Gray];
      done' := done;
      SearchPush(g, colors, path, done, x);
      assert x in Whites(colors) && x !in Whites(colors');
      var node := nodes[x];
      for k := 0 to |node.dependents|
        invariant SearchState(g, colors', path + [x], done')
        invariant Advanced(colors, done, colors', done')
        invariant forall m :: 0 <= m < k ==> node.dependents[m] in done'
      {
        var dep := node.dependents[k];
        assert Edge(g, x, dep);
        if dep !in colors' { continue; }
        if colors'[dep] == Gray {
          SearchCycle(g, path + [x], dep);
          return true, colors', done';
        }
        if colors'[dep] == White {
          var sub;
          sub, colors', done' := Search(colors', dep, g, path + [x], done');
          if sub { return true, colors', done'; }
        }
      }
      SearchFinish(g, colors', path, done', x);
      return false, colors'[x := Black], [x] + done';
    }

    /** `_detect_cycle`. */
    method DetectCycle(ghost g: Graph) returns (found: bool)
      requires Linked(g)
      ensures found <==> Cyclic(g)
      ensures !found ==> exists o :: Topological(g, o)
    {
      var colors := map x | x in nodes :: White;
      ghost var done: seq<Id> := [];
      for k := 0 to |ids|
        invariant SearchState(g, colors, [], done)
        invariant forall m :: 0 <= m < k ==> ids[m] in done
      {
        assert ids[k] in ids;
        if colors[ids[k]] == White {
          var sub;
          sub, colors, done := Search(colors, ids[k], g, [], done);
          if sub { return true; }
        }
      }
      SearchComplete(g, colors, done);
      TopologicalAcyclic(g, done);
      return false;
    }

    /** The tasks with in-degree zero. */
    method InitialQueue(inDegree: map<Id, int>) returns (queue: seq<Id>)
      requires Distinct(ids) && forall x :: x in ids ==> x in inDegree
      ensures Distinct(queue)
      ensures forall x :: x in queue <==> x in ids && inDegree[x] == 0
    {
      queue := [];
      for k := 0 to |ids|
        invariant Distinct(queue)
        invariant forall x :: x in queue <==> x in ids[..k] && inDegree[x] == 0
      {
        assert ids[k] in ids;
        if inDegree[ids[k]] == 0 {
          queue := queue + [ids[k]];
        }
      }
      assert ids[..|ids|] == ids;
    }

    /** In-degrees over the dependencies that exist in the graph. */
    method InDegrees(ghost g: Graph) returns (inDegree: map<Id, int>)
      requires nodes.Keys == g.deps.Keys && forall x :: x in nodes ==> nodes[x].dependencies == g.deps[x]
      ensures inDegree.Keys == g.deps.Keys
      ensures forall m :: m in g.deps ==> inDegree[m] == |InGraph(g.deps[m], g.deps.Keys)|
    {
      inDegree := map x | x in nodes :: |InGraph(nodes[x].dependencies, nodes.Keys)|;
    }

    /** Sorts the queue, takes its least task and releases that task's dependents. */
    method TakeLeast(ghost g: Graph, ghost s: map<Id, seq<Id>>, ghost result: seq<Id>,
                     queue: seq<Id>, inDegree: map<Id, int>)
      returns (c: Id, queue': seq<Id>, inDegree': map<Id, int>)
      requires Mirrors(g, s) && SortState(g, result, queue, inDegree) && queue != []
      requires nodes.Keys == s.Keys && forall x :: x in nodes ==> nodes[x].dependents == s[x]
      ensures SortState(g, result + [c], queue', inDegree')
      ensures |result + [c]| <= |g.deps|
    {
      var sorted := Sort(queue);
      c := sorted[0];
      var rest := sorted[1..];
      SortedHead(queue, c, rest);
      BalancedCovers(g, result, inDegree, c);
      MirrorsAt(g, s, c);
      inDegree', queue' := Release(nodes[c].dependents, inDegree, rest);
      SortStateStep(g, result, queue, inDegree, rest, c, queue', inDegree');
      RunFits(g, result + [c]);
    }

    /** The in-degree loop of `topological_sort`. */
    method Drain(ghost g: Graph) returns (result: seq<Id>)
      requires Mirrored(g) && ids == g.ids && Keyed()
      requires forall x :: x in nodes ==> nodes[x].dependencies == g.deps[x]
      requires exists o :: Topological(g, o)
      ensures |result| == |ids| ==> SortResult(g, result)
      ensures |result| != |ids| ==> LateRepeat(g)
    {
      ghost var s := Succs();
      assert s.Keys == nodes.Keys;
      var inDegree := InDegrees(g);
      var queue := InitialQueue(inDegree);
      result := [];
      SortStateStart(g, queue, inDegree);
      while queue != []
        invariant SortState(g, result, queue, inDegree)
        invariant forall x :: x in nodes ==> nodes[x].dependents == s[x]
        decreases |g.deps| - |result|
      {
        var c;
        c, queue, inDegree := TakeLeast(g, s, result, queue, inDegree);
        result := result + [c];
      }
      SortStateEnd(g, result, inDegree);
    }

    /** The uncached part of `topological_sort`: cycle check, then the in-degree loop. */
    method FreshSort(ghost g: Graph) returns (r: SortOutcome)
      requires Linked(g) && Mirrored(g) && ids == g.ids && Keyed()
      requires forall x :: x in nodes ==> nodes[x].dependencies == g.deps[x]
      ensures SortSpec(g, r)
    {
      var cyclic := DetectCycle(g);
      if cyclic { return CycleDetected; }
      var result := Drain(g);
      if |result| != |ids| { return NotAllProcessed; }
      SortResultMeetsSpec(g, result);
      return Order(result);
    }

    /** `topological_sort`, with its cache. */
    method TopologicalSort() returns (r: SortOutcome)
      requires Valid()
      modifies this`executionOrder
      ensures Valid() && SortSpec(View(), r)
      ensures executionOrder == if r.Order? then Some(r.order) else old(executionOrder)
    {
      if executionOrder.Some? { return Order(executionOrder.value); }
      ValidLinked();
      r := FreshSort(View());
      if r.Order? { Cache(r.order); }
    }

    method Cache(order: seq<Id>)
      requires Valid() && SortSpec(View(), Order(order))
      modifies this`executionOrder
      ensures Valid() && View() == old(View()) && executionOrder == Some(order)
    {
      ghost var g := View();
      executionOrder := Some(order);
      assert View() == g && Mirrored(g);
    }

    method MarkNodeBlocked(d: Id, ghost st: map<Id, TaskStatus>, ghost blocked: seq<Id>)
      requires d in nodes && Keyed()
      requires Statuses() == MarkBlocked(st, Elements(blocked)) && nodes[d].status == Pending
      modifies {nodes[d]}`status
      ensures Statuses() == MarkBlocked(st, Elements(blocked + [d]))
    {
      var _ := nodes[d].TransitionTo(Blocked);
    }

    /** The recursion of `propagate_failure`: blocks the pending dependents of `id` and below. */
    method BlockDependents(ghost g: Graph, ghost st: map<Id, TaskStatus>, ghost from: Id,
                           id: Id, visited: set<Id>, blocked: seq<Id>)
      returns (visited': set<Id>, blocked': seq<Id>)
      requires Linked(g) && st.Keys == nodes.Keys
      requires BlockState(g, st, from, visited, blocked) && (id == from || id in blocked)
      requires Statuses() == MarkBlocked(st, Elements(blocked))
      modifies repr`status
      ensures BlockState(g, st, from, visited', blocked')
      ensures Statuses() == MarkBlocked(st, Elements(blocked'))
      ensures Followed(g, visited, blocked, visited', blocked') && AllVisited(g, id, visited')
      decreases nodes.Keys - visited
    {
      visited', blocked' := visited, blocked;
      if id !in nodes { return; }
      var ds := nodes[id].dependents;
      for k := 0 to |ds|
        invariant BlockState(g, st, from, visited', blocked')
        invariant Statuses() == MarkBlocked(st, Elements(blocked'))
        invariant Followed(g, visited, blocked, visited', blocked')
        invariant forall m :: 0 <= m < k ==> ds[m] in visited'
      {
        var d := ds[k];
        if d in visited' { continue; }
        assert Edge(g, id, d) && nodes[d].status == Statuses()[d];
        BlockStateVisit(g, st, from, id, d, visited', blocked');
        ghost var v1, b1 := visited', blocked';
        visited' := visited' + {d};
        if d in nodes && nodes[d].status == Pending {
          MarkNodeBlocked(d, st, blocked');
          visited', blocked' := BlockDependents(g, st, from, d, visited', blocked' + [d]);
          FollowedStep(g, d, visited, blocked, v1, b1, visited', blocked');
        }
      }
    }

    /** `propagate_failure`. */
    method PropagateFailure(failed: Id) returns (blocked: seq<Id>)
      requires Valid()
      modifies repr`status
      ensures Valid() && Distinct(blocked)
      ensures forall x :: x in blocked <==>
        x in nodes && old(Statuses())[x] == Pending && PendingReachable(View(), old(Statuses()), failed, x)
      ensures Statuses() == MarkBlocked(old(Statuses()), Elements(blocked))
    {
      ValidLinked();
      ghost var g, st := View(), Statuses();
      var visited;
      visited, blocked := BlockDependents(g, st, failed, failed, {}, []);
      forall x | x in st && st[x] == Pending && PendingReachable(g, st, failed, x)
        ensures x in blocked
      {
        var p :| PendingPath(g, st, p) && p[0] == failed && p[|p| - 1] == x;
        assert AllVisited(g, failed, visited) && forall b :: b in blocked ==> AllVisited(g, b, visited);
        PendingClosure(g, st, Elements(blocked), p);
      }
    }

    method AppendDependent(d: Id, id: Id)
      requires d in nodes && Keyed()
      modifies {nodes[d]}`dependents
      ensures Succs() == old(Succs())[d := old(Succs())[d] + [id]]
    {
      nodes[d].dependents := nodes[d].dependents + [id];
    }

    /** First loop of `add_task`: `id` becomes a dependent of each of its dependencies. */
    method AppendToDependencies(id: Id, deps: seq<Id>)
      requires Keyed()
      modifies repr`dependents
      ensures Appended(old(Succs()), Succs(), id, deps)
    {
      ghost var s0 := Succs();
      for k := 0 to |deps|
        invariant Appended(s0, Succs(), id, deps[..k])
      {
        var d := deps[k];
        ghost var s1 := Succs();
        if d in nodes { AppendDependent(d, id); }
        AppendedStep(s0, s1, id, deps[..k], d);
        assert deps[..k + 1] == deps[..k] + [d];
      }
      assert deps[..|deps|] == deps;
    }

    /** Second loop of `add_task`: tasks added earlier that already depend on `node`. */
    method CollectDependents(node: TaskNode)
      requires Distinct(ids) && (forall x :: x in ids ==> x in nodes) && Keyed()
      requires node.id in nodes && nodes[node.id] == node
      requires node.id in node.dependencies ==> node.id in node.dependents
      requires forall x :: x in node.dependents ==> x == node.id
      modifies node`dependents
      ensures Succs() == old(Succs())[node.id := node.dependents]
      ensures multiset(node.dependents)[node.id] == old(multiset(node.dependents)[node.id])
      ensures forall n :: n != node.id ==>
        multiset(node.dependents)[n] == Bit(n in ids && node.id in nodes[n].dependencies)
    {
      forall x | x != node.id
        ensures multiset(node.dependents)[x] == 0
      {
        assert x in node.dependents <==> x in multiset(node.dependents);
      }
      for k := 0 to |ids|
        invariant multiset(node.dependents)[node.id] == old(multiset(node.dependents)[node.id])
        invariant forall n :: n != node.id ==>
          multiset(node.dependents)[n] == Bit(n in ids[..k] && node.id in nodes[n].dependencies)
      {
        var e := ids[k];
        assert ids[..k + 1] == ids[..k] + [e];
        assert e in ids && e !in ids[..k];
        assert e in node.dependents <==> e in multiset(node.dependents);
        if node.id in nodes[e].dependencies && e !in node.dependents {
          node.dependents := node.dependents + [e];
        }
      }
      assert ids[..|ids|] == ids;
    }

    /** Both loops: links the new node into a graph that mirrored `g` before. */
    method LinkNode(ghost g: Graph, ghost s: map<Id, seq<Id>>, node: TaskNode)
      requires Shape() && Mirrors(g, s) && node.id !in g.deps && View() == Added(g, node.id, node.dependencies)
      requires node.id in nodes && nodes[node.id] == node && Succs() == s[node.id := []]
      modifies repr`dependents
      ensures Mirrored(View())
    {
      AppendToDependencies(node.id, node.dependencies);
      ghost var s1 := Succs();
      AppendedSelf(s[node.id := []], s1, node.id, node.dependencies);
      CollectDependents(node);
      forall n | n != node.id
        ensures multiset(node.dependents)[n] == Bit(n in g.deps && node.id in g.deps[n])
      {
        assert n in ids <==> n in g.deps || n == node.id;
        assert n in g.deps ==> View().deps[n] == g.deps[n] && View().deps[n] == nodes[n].dependencies;
      }
      MirrorsAdded(g, s, s1, Succs(), node.id, node.dependencies);
    }

    /** Files a node that is not yet linked. */
    method Enter(node: TaskNode)
      requires node.id !in nodes && Keyed()
      modifies this
      ensures nodes == old(nodes)[node.id := node] && repr == old(repr) + {node} && executionOrder == None
      ensures ids == old(ids) + [node.id] && Succs() == old(Succs())[node.id := node.dependents]
      ensures Statuses() == old(Statuses())[node.id := node.status]
    {
      ghost var s, st := Succs(), Statuses();
      ids := ids + [node.id];
      nodes := nodes[node.id := node];
      repr := repr + {node};
      executionOrder := None;
      assert Succs() == s[node.id := node.dependents];
      assert Statuses() == st[node.id := node.status];
    }

    method Create(id: Id, dependencies: seq<Id>) returns (node: TaskNode)
      requires id !in nodes && Keyed()
      modifies this
      ensures id in nodes && nodes == old(nodes)[id := node] && node.id == id && node.dependencies == dependencies
      ensures fresh(node) && repr == old(repr) + {node} && executionOrder == None
      ensures View() == Added(old(View()), id, dependencies)
      ensures Succs() == old(Succs())[id := []] && Statuses() == old(Statuses())[id := Pending]
    {
      ghost var g, s, st := View(), Succs(), Statuses();
      node := new TaskNode(id, dependencies);
      assert Succs() == s && Statuses() == st;
      Enter(node);
      assert View() == Added(g, id, dependencies);
    }

    /** `add_task`. */
    method AddTask(id: Id, dependencies: seq<Id>) returns (o: Outcome)
      requires Valid()
      modifies this, repr`dependents
      ensures Valid()
      ensures o.Raised? <==> old(id in nodes)
      ensures o.Raised? ==>
        View() == old(View()) && Statuses() == old(Statuses()) && executionOrder == old(executionOrder)
      ensures o.Done? ==> View() == Added(old(View()), id, dependencies)
      ensures o.Done? ==> Statuses() == old(Statuses())[id := Pending] && executionOrder == None
      ensures o.Done? ==> id in nodes && nodes == old(nodes)[id := nodes[id]]
      ensures fresh(repr - old(repr))
    {
      if id in nodes { return Raised; }
      ghost var g, s := View(), Succs();
      AddedWellFormed(g, id, dependencies);
      var node := Create(id, dependencies);
      LinkNode(g, s, node);
      return Done;
    }

    /** `reset`: every status returns to PENDING; the cached order is kept. */
    method Reset()
      requires Valid()
      modifies repr`status
      ensures Valid()
      ensures Statuses() == map x | x in nodes :: Pending
    {
      for k := 0 to |ids|
        invariant forall i :: 0 <= i < k && ids[i] in nodes ==> nodes[ids[i]].status == Pending
      {
        assert ids[k] in ids && ids[k] in View().deps;
        nodes[ids[k]].status := Pending;
      }
      forall x | x in nodes
        ensures nodes[x].status == Pending
      {
        assert x in View().deps && x in ids;
      }
    }

    /** The serialized form of node `x`. */
    function DataOf(x: Id): NodeData
      reads this`nodes, nodes.Values
      requires x in nodes
    {
      var n := nodes[x];
      NodeData(n.id, n.dependencies, n.dependents, n.status)
    }

    lemma SnapshotExact(s: Snapshot)
      requires Shape() && s.keys == ids && s.nodes == map x | x in nodes :: DataOf(x)
      ensures Readable(s) && SnapshotView(s) == View()
      ensures SnapshotSuccs(s) == Succs() && SnapshotStatuses(s) == Statuses()
    {
    }

    /** `to_dict`. */
    method ToDict() returns (s: Snapshot)
      requires Valid()
      ensures ValidSnapshot(s) && SnapshotView(s) == View() && SnapshotSuccs(s) == Succs()
      ensures SnapshotStatuses(s) == Statuses() && s.executionOrder == executionOrder
    {
      s := Snapshot(ids, map x | x in nodes :: DataOf(x), executionOrder);
      SnapshotExact(s);
    }

    /** One entry of the node dictionary. */
    method Load(data: NodeData)
      requires data.id !in nodes
      modifies this
      ensures ids == old(ids) + [data.id] && executionOrder == old(executionOrder)
      ensures data.id in nodes && nodes == old(nodes)[data.id := nodes[data.id]]
      ensures fresh(nodes[data.id]) && repr == old(repr) + {nodes[data.id]} && nodes[data.id].Shows(data)
    {
      var node := new TaskNode.Restore(data);
      ids := ids + [data.id];
      nodes := nodes[data.id := node];
      repr := repr + {node};
    }

    /** `from_dict`: a fresh graph that shows exactly what the snapshot says; it is valid if the
        snapshot was taken of a valid graph, so its cached order is still what a fresh sort returns. */
    static method FromDict(s: Snapshot) returns (graph: TaskGraph)
      requires Readable(s)
      ensures fresh(graph) && fresh(graph.repr) && graph.Keyed()
      ensures graph.View() == SnapshotView(s) && graph.Succs() == SnapshotSuccs(s)
      ensures graph.Statuses() == SnapshotStatuses(s) && graph.executionOrder == s.executionOrder
      ensures ValidSnapshot(s) ==> graph.Valid()
    {
      graph := new TaskGraph();
      for k := 0 to |s.keys|
        invariant fresh(graph) && fresh(graph.repr) && graph.Loaded(s, k)
      {
        graph.LoadNext(s, k);
      }
      assert s.keys[..|s.keys|] == s.keys;
      graph.executionOrder := s.executionOrder;
      graph.ShowsSnapshot(s);
    }

    /** The first `k` nodes of the snapshot have been loaded. */
    ghost predicate Loaded(s: Snapshot, k: nat)
      reads this`ids, this`nodes, this`repr, repr
    {
      && k <= |s.keys| && ids == s.keys[..k] && (forall x :: x in nodes <==> x in ids)
      && forall x {:trigger nodes[x]} :: x in nodes ==> x in s.nodes && nodes[x] in repr && nodes[x].Shows(s.nodes[x])
    }

    method LoadNext(s: Snapshot, k: nat)
      requires Readable(s) && k < |s.keys| && Loaded(s, k)
      modifies this
      ensures Loaded(s, k + 1) && fresh(repr - old(repr))
    {
      assert s.keys[k] in s.keys && s.keys[k] !in s.keys[..k];
      assert s.keys[..k + 1] == s.keys[..k] + [s.keys[k]];
      Load(s.nodes[s.keys[k]]);
    }

    lemma ShowsSnapshot(s: Snapshot)
      requires Readable(s) && Loaded(s, |s.keys|)
      ensures Keyed() && View() == SnapshotView(s)
      ensures Succs() == SnapshotSuccs(s) && Statuses() == SnapshotStatuses(s)
    {
      LoadedKeys(s);
      ShowsLists(s);
      ShowsStatuses(s);
    }

    lemma LoadedKeys(s: Snapshot)
      requires Readable(s) && Loaded(s, |s.keys|)
      ensures Keyed() && ids == s.keys && nodes.Keys == s.nodes.Keys
    {
      assert s.keys[..|s.keys|] == s.keys;
      forall x | x in nodes
        ensures nodes[x].id == x
      {
        assert nodes[x].Shows(s.nodes[x]) && s.nodes[x].id == x;
      }
    }

    lemma ShowsLists(s: Snapshot)
      requires Loaded(s, |s.keys|) && Keyed() && ids == s.keys && nodes.Keys == s.nodes.Keys
      ensures View() == SnapshotView(s) && Succs() == SnapshotSuccs(s)
    {
      forall x | x in nodes
        ensures nodes[x].dependencies == s.nodes[x].dependencies && nodes[x].dependents == s.nodes[x].dependents
      {
        assert nodes[x].Shows(s.nodes[x]);
      }
    }

    lemma ShowsStatuses(s: Snapshot)
      requires Loaded(s, |s.keys|) && Keyed() && nodes.Keys == s.nodes.Keys
      ensures Statuses() == SnapshotStatuses(s)
    {
      forall x | x in nodes
        ensures nodes[x].status == s.nodes[x].status
      {
        assert nodes[x].Shows(s.nodes[x]);
      }
    }
  }

  /** A dictionary whose keys are the identifiers of its nodes, as `to_dict` writes. */
  ghost predicate Readable(s: Snapshot) {
    && Distinct(s.keys) && (forall x :: x in s.keys <==> x in s.nodes)
    && forall x :: x in s.nodes ==> s.nodes[x].id == x
  }

  /** What `to_dict` writes for a valid graph. */
  ghost predicate ValidSnapshot(s: Snapshot) {
    && Readable(s) && Mirrors(SnapshotView(s), SnapshotSuccs(s))
    && (s.executionOrder.Some? ==> SortSpec(SnapshotView(s), Order(s.executionOrder.value)))
  }

  ghost function SnapshotView(s: Snapshot): Graph {
    Graph(s.keys, map x | x in s.nodes :: s.nodes[x].dependencies)
  }

  ghost function SnapshotSuccs(s: Snapshot): map<Id, seq<Id>> {
    map x | x in s.nodes :: s.nodes[x].dependents
  }

  ghost function SnapshotStatuses(s: Snapshot): map<Id, TaskStatus> {
    map x | x in s.nodes :: s.nodes[x].status
  }
}
