/**
  Sharding of large projects: a depth-first topological sort of the task list, and the loop that
  packs the sorted tasks into shards.
 */
module LargeProjects {
  import opened Ids
  import opened GraphSpec
  import opened ShardSpec

  datatype Subtask = Subtask(id: Id, dependencies: seq<Id>, files: seq<string>)

  datatype Shard = Shard(index: nat, total: nat, taskIds: seq<Id>, files: set<string>, tokens: int)

  /** The task list as a dictionary: of tasks with the same identifier the last one counts. */
  function TaskMap(tasks: seq<Subtask>): map<Id, Subtask> {
    if tasks == [] then map[]
    else var last := tasks[|tasks| - 1]; TaskMap(tasks[..|tasks| - 1])[last.id := last]
  }

  /** Every identifier of the list is a key, and stands for the last task that has it. */
  lemma {:induction false} TaskMapExact(tasks: seq<Subtask>, i: nat)
    requires i < |tasks|
    ensures tasks[i].id in TaskMap(tasks)
    ensures (forall j :: i < j < |tasks| ==> tasks[j].id != tasks[i].id) ==> TaskMap(tasks)[tasks[i].id] == tasks[i]
  {
    var n := |tasks| - 1;
    if i < n {
      TaskMapExact(tasks[..n], i);
      if forall j :: i < j < |tasks| ==> tasks[j].id != tasks[i].id { assert tasks[n].id != tasks[i].id; }
    }
  }

  /** Its keys, in the order of their first appearance. */
  function TaskKeys(tasks: seq<Subtask>): seq<Id> {
    if tasks == [] then []
    else
      var last, before := tasks[|tasks| - 1].id, TaskKeys(tasks[..|tasks| - 1]);
      if last in before then before else before + [last]
  }

  function TaskGraph(tasks: seq<Subtask>): Graph {
    Graph(TaskKeys(tasks), map x | x in TaskMap(tasks) :: TaskMap(tasks)[x].dependencies)
  }

  lemma {:induction false} TaskGraphWellFormed(tasks: seq<Subtask>)
    ensures WellFormed(TaskGraph(tasks))
    ensures forall x :: x in TaskMap(tasks) ==> TaskMap(tasks)[x].id == x && TaskMap(tasks)[x] in tasks
  {
    if tasks != [] {
      TaskGraphWellFormed(tasks[..|tasks| - 1]);
      var g, h := TaskGraph(tasks[..|tasks| - 1]), TaskGraph(tasks);
      assert forall x :: x in g.deps <==> x in TaskMap(tasks[..|tasks| - 1]);
      assert forall x :: x in h.deps <==> x in TaskMap(tasks);
    }
  }

  /** The invariant of the depth-first sort: what is visited is finished or on the path of open
      visits, and without cycles a finished task comes after all its dependencies. */
  ghost predicate VisitState(g: Graph, visited: set<Id>, result: seq<Id>, path: seq<Id>) {
    && visited <= g.deps.Keys && Distinct(result)
    && (forall x :: x in visited <==> x in result || x in path)
    && (forall x :: x in result ==> x !in path)
    && (path == [] || IsPath(g, path))
    && (!Cyclic(g) ==> DependenciesFirst(g, result))
  }

  ghost predicate DependenciesFirst(g: Graph, o: seq<Id>) {
    forall i :: 0 <= i < |o| ==> DepsIn(g, o[..i], o[i])
  }

  lemma VisitPush(g: Graph, visited: set<Id>, result: seq<Id>, path: seq<Id>, x: Id)
    requires VisitState(g, visited, result, path) && x in g.deps && x !in visited
    requires path == [] || Edge(g, x, path[0])
    ensures VisitState(g, visited + {x}, result, [x] + path)
  {
    var p := [x] + path;
    assert forall i :: 0 < i < |p| ==> p[i] == path[i - 1];
  }

  /** A dependency that is on the path closes a cycle. */
  lemma OnPathCycle(g: Graph, path: seq<Id>, d: Id)
    requires IsPath(g, path) && d in path && Edge(g, d, path[0])
    ensures Cyclic(g)
  {
    var i :| 0 <= i < |path| && path[i] == d;
    var c := [d] + path[..i + 1];
    assert forall k :: 0 < k < |c| ==> c[k] == path[k - 1];
    assert IsCycle(g, c);
  }

  lemma VisitFinish(g: Graph, visited: set<Id>, result: seq<Id>, path: seq<Id>, x: Id)
    requires VisitState(g, visited, result, [x] + path) && x !in path && x !in result
    requires forall d :: Edge(g, d, x) ==> d in visited
    ensures VisitState(g, visited, result + [x], path)
  {
    var p, r := [x] + path, result + [x];
    assert x in p && forall y :: y in path ==> y in p;
    forall y
      ensures y in visited <==> y in r || y in path
    {
      assert y in p <==> y == x || y in path;
    }
    assert path == [] || IsPath(g, path) by {
      assert forall i :: 0 <= i < |path| ==> p[i + 1] == path[i];
    }
    if !Cyclic(g) {
      forall d | Edge(g, d, x)
        ensures d in result
      {
        if d in p { OnPathCycle(g, p, d); }
      }
      forall i | 0 <= i < |r|
        ensures DepsIn(g, r[..i], r[i])
      {
        assert r[..i] == result[..i];
        if i < |result| { assert DepsIn(g, result[..i], result[i]); }
      }
    }
  }

  lemma VisitsComplete(g: Graph, visited: set<Id>, result: seq<Id>)
    requires VisitState(g, visited, result, []) && visited == g.deps.Keys
    ensures Topological(g, result) <==> !Cyclic(g)
  {
    if Topological(g, result) {
      TopologicalAcyclic(g, result);
    } else if !Cyclic(g) {
      EarlierDependencies(g, result);
    }
  }

  lemma EarlierDependencies(g: Graph, o: seq<Id>)
    requires Distinct(o) && DependenciesFirst(g, o)
    ensures forall i, j :: 0 <= i < |o| && 0 <= j < |o| && Edge(g, o[i], o[j]) ==> i < j
  {
    forall i, j | 0 <= i < |o| && 0 <= j < |o| && Edge(g, o[i], o[j])
      ensures i < j
    {
      assert DepsIn(g, o[..j], o[j]);
      var k :| 0 <= k < j && o[..j][k] == o[i];
    }
  }

  /** `visit` of `_topological_sort`; the dependencies are a set, walked in any order. */
  method Visit(ghost g: Graph, tasks: map<Id, Subtask>, x: Id, visited: set<Id>, result: seq<Id>, ghost path: seq<Id>)
    returns (visited': set<Id>, result': seq<Id>)
    requires g.deps == map y | y in tasks :: tasks[y].dependencies
    requires VisitState(g, visited, result, path) && x in tasks
    requires path == [] || Edge(g, x, path[0])
    ensures VisitState(g, visited', result', path)
    ensures x in visited' && visited <= visited'
    decreases g.deps.Keys - visited
  {
    visited', result' := visited, result;
    if x in visited { return; }
    VisitPush(g, visited, result, path, x);
    visited' := visited' + {x};
    var deps := set d | d in tasks[x].dependencies;
    var rest := deps;
    while rest != {}
      invariant VisitState(g, visited', result', [x] + path)
      invariant visited + {x} <= visited' && rest <= deps
      invariant forall d :: Edge(g, d, x) && d !in rest ==> d in visited'
      decreases rest
    {
      var d :| d in rest;
      rest := rest - {d};
      if d in tasks {
        visited', result' := Visit(g, tasks, d, visited', result', [x] + path);
      }
    }
    assert x in [x] + path;
    VisitFinish(g, visited', result', path, x);
    result' := result' + [x];
  }

  /** `_topological_sort`: always a permutation of the distinct tasks, and one that respects all
      dependencies between them exactly when these are acyclic. */
  method TopologicalSort(tasks: seq<Subtask>) returns (taskMap: map<Id, Subtask>, result: seq<Id>)
    ensures taskMap == TaskMap(tasks)
    ensures Distinct(result) && forall x :: x in result <==> x in taskMap
    ensures Topological(TaskGraph(tasks), result) <==> !Cyclic(TaskGraph(tasks))
  {
    var keys;
    taskMap, keys := Collect(tasks);
    ghost var g := TaskGraph(tasks);
    TaskGraphWellFormed(tasks);
    var visited: set<Id> := {};
    result := [];
    for k := 0 to |keys|
      invariant VisitState(g, visited, result, [])
      invariant forall i :: 0 <= i < k ==> keys[i] in visited
    {
      assert keys[k] in g.ids && keys[k] in g.deps;
      visited, result := Visit(g, taskMap, keys[k], visited, result, []);
    }
    VisitsComplete(g, visited, result);
  }

  method Collect(tasks: seq<Subtask>) returns (taskMap: map<Id, Subtask>, keys: seq<Id>)
    ensures taskMap == TaskMap(tasks) && keys == TaskKeys(tasks)
  {
    taskMap, keys := map[], [];
    for k := 0 to |tasks|
      invariant taskMap == TaskMap(tasks[..k]) && keys == TaskKeys(tasks[..k])
    {
      assert tasks[..k + 1][..k] == tasks[..k];
      taskMap := taskMap[tasks[k].id := tasks[k]];
      if tasks[k].id !in keys { keys := keys + [tasks[k].id]; }
    }
    assert tasks[..|tasks|] == tasks;
  }

  /** The estimate of a file the caller gave none for. */
  const DEFAULT_TOKENS := 500

  function Estimate(estimates: map<string, int>, files: seq<string>): int {
    if files == [] then 0
    else
      var f := files[|files| - 1];
      Estimate(estimates, files[..|files| - 1]) + if f in estimates then estimates[f] else DEFAULT_TOKENS
  }

  /** A file counts with its estimate, or with 500 tokens if it has none; files add up. */
  lemma EstimateOne(estimates: map<string, int>, f: string)
    ensures f in estimates ==> Estimate(estimates, [f]) == estimates[f]
    ensures f !in estimates ==> Estimate(estimates, [f]) == 500
  {
    assert [f][..0] == [];
  }

  lemma {:induction false} EstimateAdds(estimates: map<string, int>, a: seq<string>, b: seq<string>)
    ensures Estimate(estimates, a + b) == Estimate(estimates, a) + Estimate(estimates, b)
  {
    if b == [] {
      assert a + b == a;
    } else {
      EstimateAdds(estimates, a, b[..|b| - 1]);
      assert (a + b)[..|a + b| - 1] == a + b[..|b| - 1];
    }
  }

  lemma {:induction false} EstimateNonNegative(estimates: map<string, int>, files: seq<string>)
    requires forall f :: f in estimates ==> estimates[f] >= 0
    ensures Estimate(estimates, files) >= 0
  {
    if files != [] { EstimateNonNegative(estimates, files[..|files| - 1]); }
  }

  method SumEstimates(estimates: map<string, int>, files: seq<string>) returns (tokens: int)
    ensures tokens == Estimate(estimates, files)
  {
    tokens := 0;
    for k := 0 to |files|
      invariant tokens == Estimate(estimates, files[..k])
    {
      assert files[..k + 1][..k] == files[..k];
      tokens := tokens + if files[k] in estimates then estimates[files[k]] else DEFAULT_TOKENS;
    }
    assert files[..|files|] == files;
  }

  /** A task as the packing sees it. */
  function ItemOf(taskMap: map<Id, Subtask>, estimates: map<string, int>, x: Id): Item {
    var files := if x in taskMap then taskMap[x].files else [];
    Item(x, files, Estimate(estimates, files))
  }

  function Items(taskMap: map<Id, Subtask>, order: seq<Id>, estimates: map<string, int>): seq<Item> {
    seq(|order|, i requires 0 <= i < |order| => ItemOf(taskMap, estimates, order[i]))
  }

  /** Shard `i` of `total` holds the group `g`. */
  ghost predicate Holds(s: Shard, g: Group, i: nat, total: nat) {
    s == Shard(i, total, IdsOf(g), FilesOf(g), TokensOf(g))
  }

  ghost predicate AllHold(shards: seq<Shard>, gs: seq<Group>, total: nat) {
    && |shards| == |gs|
    && forall i {:trigger Holds(shards[i], gs[i], i, total)} :: 0 <= i < |gs| ==> Holds(shards[i], gs[i], i, total)
  }

  /** The state of the packing loop: closed groups and the open one. */
  ghost predicate PackState(c: ShardConfig, done: seq<Item>, gs: seq<Group>, open: Group) {
    && Flatten(gs) + open == done
    && (forall i {:trigger Admissible(c, gs[i])} :: 0 <= i < |gs| ==> Admissible(c, gs[i]))
    && Stopped(c, gs) && (open == [] ==> gs == [])
    && (open != [] ==> Admissible(c, open) && (gs != [] ==> !Fits(c, gs[|gs| - 1], open[0])))
  }

  lemma PackAdd(c: ShardConfig, done: seq<Item>, gs: seq<Group>, open: Group, t: Item)
    requires PackState(c, done, gs, open) && (open == [] || Fits(c, open, t))
    ensures PackState(c, done + [t], gs, open + [t])
  {
    var g := open + [t];
    assert g[0] == if open == [] then t else open[0];
    forall i | 1 <= i < |g|
      ensures Fits(c, g[..i], g[i])
    {
      assert g[..i] == open[..i];
      if i == |open| { assert open[..i] == open; }
    }
    assert Flatten(gs) + g == done + [t];
  }

  lemma PackClose(c: ShardConfig, done: seq<Item>, gs: seq<Group>, open: Group)
    requires PackState(c, done, gs, open) && open != []
    ensures Split(c, done, gs + [open]) && Stopped(c, gs + [open])
  {
    var all := gs + [open];
    assert all[..|gs|] == gs;
    forall i | 1 <= i < |all|
      ensures StoppedAt(c, all, i)
    {
      if i < |gs| { assert StoppedAt(c, gs, i); }
    }
  }

  lemma PackCloseAdd(c: ShardConfig, done: seq<Item>, gs: seq<Group>, open: Group, t: Item)
    requires PackState(c, done, gs, open) && open != [] && !Fits(c, open, t)
    ensures PackState(c, done + [t], gs + [open], [t])
  {
    PackClose(c, done, gs, open);
  }

  function IdLists(shards: seq<Shard>): seq<seq<Id>> {
    seq(|shards|, i requires 0 <= i < |shards| => shards[i].taskIds)
  }

  /** The tasks of all shards, in order. */
  function OrderOf(shards: seq<Shard>): seq<Id> {
    Flatten(IdLists(shards))
  }

  /** The group of tasks in each shard. */
  function GroupsOf(taskMap: map<Id, Subtask>, estimates: map<string, int>, shards: seq<Shard>): seq<Group> {
    seq(|shards|, i requires 0 <= i < |shards| => Items(taskMap, shards[i].taskIds, estimates))
  }

  /** What `create_shards` produces: the distinct tasks, sorted, cut greedily, and written out. */
  ghost predicate Sharding(c: ShardConfig, tasks: seq<Subtask>, estimates: map<string, int>, shards: seq<Shard>) {
    var order, gs := OrderOf(shards), GroupsOf(TaskMap(tasks), estimates, shards);
    && Distinct(order) && (forall x :: x in order <==> x in TaskMap(tasks))
    && (Topological(TaskGraph(tasks), order) <==> !Cyclic(TaskGraph(tasks)))
    && Split(c, Items(TaskMap(tasks), order, estimates), gs) && Stopped(c, gs)
    && AllHold(shards, gs, |shards|)
  }

  method CreateShards(c: ShardConfig, tasks: seq<Subtask>, estimates: map<string, int>) returns (shards: seq<Shard>)
    ensures Sharding(c, tasks, estimates, shards)
  {
    var taskMap, sorted := TopologicalSort(tasks);
    shards := Pack(c, taskMap, sorted, estimates);
    ghost var gs, ids := GroupsOf(taskMap, estimates, shards), IdLists(shards);
    for k := 0 to |shards|
      invariant |shards| == |gs| && IdLists(shards) == ids
      invariant forall i {:trigger shards[i]} :: 0 <= i < |gs| ==> Holds(shards[i], gs[i], i, if i < k then |gs| else 0)
    {
      shards := shards[k := shards[k].(total := |shards|)];
    }
    assert forall i :: 0 <= i < |shards| ==> shards[i].taskIds == ids[i];
    assert GroupsOf(taskMap, estimates, shards) == gs;
  }

  /** The packing loop's variables describe the open group and the shards closed so far. */
  ghost predicate Packed(c: ShardConfig, done: seq<Item>, gs: seq<Group>, open: Group,
                         shards: seq<Shard>, ids: seq<Id>, files: set<string>, tokens: int) {
    && PackState(c, done, gs, open) && AllHold(shards, gs, 0)
    && ids == IdsOf(open) && files == FilesOf(open) && tokens == TokensOf(open)
  }

  lemma PackedAdd(c: ShardConfig, done: seq<Item>, gs: seq<Group>, open: Group,
                  shards: seq<Shard>, ids: seq<Id>, files: set<string>, tokens: int, t: Item)
    requires Packed(c, done, gs, open, shards, ids, files, tokens) && (ids == [] || Fits(c, open, t))
    ensures Packed(c, done + [t], gs, open + [t], shards, ids + [t.id], files + Names(t.files), tokens + t.tokens)
  {
    PackAdd(c, done, gs, open, t);
    GroupAdd(open, t);
  }

  lemma PackedSplit(c: ShardConfig, done: seq<Item>, gs: seq<Group>, open: Group,
                    shards: seq<Shard>, ids: seq<Id>, files: set<string>, tokens: int, t: Item)
    requires Packed(c, done, gs, open, shards, ids, files, tokens) && ids != [] && !Fits(c, open, t)
    ensures Packed(c, done + [t], gs + [open], [t], shards + [Shard(|shards|, 0, ids, files, tokens)],
                   [t.id], Names(t.files), t.tokens)
  {
    PackCloseAdd(c, done, gs, open, t);
    GroupAdd([], t);
    assert [] + [t] == [t];
  }

  lemma PackedEnd(c: ShardConfig, done: seq<Item>, gs: seq<Group>, open: Group,
                  shards: seq<Shard>, ids: seq<Id>, files: set<string>, tokens: int)
    requires Packed(c, done, gs, open, shards, ids, files, tokens) && ids != []
    ensures Split(c, done, gs + [open]) && Stopped(c, gs + [open])
    ensures AllHold(shards + [Shard(|shards|, 0, ids, files, tokens)], gs + [open], 0)
  {
    PackClose(c, done, gs, open);
  }

  /** The packing loop. */
  method Pack(c: ShardConfig, taskMap: map<Id, Subtask>, order: seq<Id>, estimates: map<string, int>)
    returns (shards: seq<Shard>)
    requires forall x :: x in order ==> x in taskMap
    ensures OrderOf(shards) == order
    ensures var gs := GroupsOf(taskMap, estimates, shards);
      Split(c, Items(taskMap, order, estimates), gs) && Stopped(c, gs) && AllHold(shards, gs, 0)
  {
    ghost var items := Items(taskMap, order, estimates);
    ghost var open: Group, gs: seq<Group> := [], [];
    shards := [];
    var ids: seq<Id>, files: set<string>, tokens := [], {}, 0;
    for k := 0 to |order|
      invariant Packed(c, items[..k], gs, open, shards, ids, files, tokens) && (k > 0 ==> open != [])
    {
      NextItem(taskMap, order, estimates, k);
      var task := taskMap[order[k]];
      var taskTokens := SumEstimates(estimates, task.files);
      ghost var t := items[k];
      var split := |ids| >= c.maxTasks || |files| + |task.files| > c.maxFiles || tokens + taskTokens > c.maxTokens;
      if split && ids != [] {
        PackedSplit(c, items[..k], gs, open, shards, ids, files, tokens, t);
        shards := shards + [Shard(|shards|, 0, ids, files, tokens)];
        gs, open := gs + [open], [t];
        ids, files, tokens := [order[k]], Names(task.files), taskTokens;
      } else {
        PackedAdd(c, items[..k], gs, open, shards, ids, files, tokens, t);
        open := open + [t];
        ids, files, tokens := ids + [order[k]], files + Names(task.files), tokens + taskTokens;
      }
    }
    assert items[..|items|] == items;
    if ids != [] {
      PackedEnd(c, items, gs, open, shards, ids, files, tokens);
      shards := shards + [Shard(|shards|, 0, ids, files, tokens)];
      gs := gs + [open];
    }
    GroupsInShards(c, taskMap, order, estimates, gs, shards);
  }

  /** A slice of the items is that of its own identifiers. */
  lemma ItemsSlice(taskMap: map<Id, Subtask>, order: seq<Id>, estimates: map<string, int>, a: nat, b: nat)
    requires a <= b <= |order|
    ensures var g := Items(taskMap, order, estimates)[a..b]; Items(taskMap, IdsOf(g), estimates) == g
  {
    var g := Items(taskMap, order, estimates)[a..b];
    assert forall k :: 0 <= k < |g| ==> g[k] == ItemOf(taskMap, estimates, order[a + k]);
  }

  /** The groups can be read off the shards. */
  lemma GroupsInShards(c: ShardConfig, taskMap: map<Id, Subtask>, order: seq<Id>, estimates: map<string, int>,
                       gs: seq<Group>, shards: seq<Shard>)
    requires Split(c, Items(taskMap, order, estimates), gs) && AllHold(shards, gs, 0)
    ensures GroupsOf(taskMap, estimates, shards) == gs && OrderOf(shards) == order
  {
    var items := Items(taskMap, order, estimates);
    forall i | 0 <= i < |gs|
      ensures shards[i].taskIds == IdsOf(gs[i]) && Items(taskMap, IdsOf(gs[i]), estimates) == gs[i]
    {
      assert Holds(shards[i], gs[i], i, 0);
      GroupSlice(gs, i);
      ItemsSlice(taskMap, order, estimates, EndOf(gs, i), EndOf(gs, i + 1));
    }
    FlattenIds(gs);
    assert IdLists(shards) == seq(|gs|, i requires 0 <= i < |gs| => IdsOf(gs[i]));
    assert IdsOf(items) == order;
  }

  lemma NextItem(taskMap: map<Id, Subtask>, order: seq<Id>, estimates: map<string, int>, k: nat)
    requires (forall x :: x in order ==> x in taskMap) && k < |order|
    ensures order[k] in taskMap
    ensures var items, task := Items(taskMap, order, estimates), taskMap[order[k]];
      && items[..k + 1] == items[..k] + [items[k]]
      && items[k] == Item(order[k], task.files, Estimate(estimates, task.files))
  {
    assert order[k] in order;
  }

  lemma GroupAdd(g: Group, t: Item)
    ensures IdsOf(g + [t]) == IdsOf(g) + [t.id] && FilesOf(g + [t]) == FilesOf(g) + Names(t.files)
    ensures TokensOf(g + [t]) == TokensOf(g) + t.tokens
  {
    assert (g + [t])[..|g|] == g;
  }

  lemma {:induction false} FlattenIds(gs: seq<Group>)
    ensures Flatten(seq(|gs|, i requires 0 <= i < |gs| => IdsOf(gs[i]))) == IdsOf(Flatten(gs))
  {
    var ids := seq(|gs|, i requires 0 <= i < |gs| => IdsOf(gs[i]));
    if gs != [] {
      var init := gs[..|gs| - 1];
      FlattenIds(init);
      assert ids[..|gs| - 1] == seq(|init|, i requires 0 <= i < |init| => IdsOf(init[i]));
    }
  }

  /** A shard breaks a limit only if it holds a single task; none is empty. */
  lemma ShardLimits(c: ShardConfig, tasks: seq<Subtask>, estimates: map<string, int>, shards: seq<Shard>, i: nat)
    requires Sharding(c, tasks, estimates, shards) && i < |shards|
    ensures shards[i].index == i && shards[i].total == |shards| && shards[i].taskIds != []
    ensures |shards[i].taskIds| > 1 ==>
      |shards[i].taskIds| <= c.maxTasks && |shards[i].files| <= c.maxFiles && shards[i].tokens <= c.maxTokens
  {
    var g := GroupsOf(TaskMap(tasks), estimates, shards)[i];
    assert Holds(shards[i], g, i, |shards|) && Admissible(c, g);
    if |g| > 1 { WithinLimits(c, g); }
  }

  /** No task is lost: the identifier of every task in the list is in some shard. */
  lemma NoTaskLost(c: ShardConfig, tasks: seq<Subtask>, estimates: map<string, int>, shards: seq<Shard>, k: nat)
    returns (i: nat)
    requires Sharding(c, tasks, estimates, shards) && k < |tasks|
    ensures i < |shards| && tasks[k].id in shards[i].taskIds
  {
    TaskMapExact(tasks, k);
    i := InSomeList(IdLists(shards), tasks[k].id);
  }

  lemma {:induction false} InSomeList<T>(lists: seq<seq<T>>, x: T) returns (i: nat)
    requires x in Flatten(lists)
    ensures i < |lists| && x in lists[i]
  {
    var n := |lists| - 1;
    if x in lists[n] {
      i := n;
    } else {
      i := InSomeList(lists[..n], x);
    }
  }

  /** The tokens of a shard are the estimates of all files its tasks list, and its files are exactly
      those. */
  lemma ShardContents(c: ShardConfig, tasks: seq<Subtask>, estimates: map<string, int>, shards: seq<Shard>, i: nat)
    requires Sharding(c, tasks, estimates, shards) && i < |shards|
    ensures shards[i].tokens == Estimate(estimates, AllFiles(TaskMap(tasks), shards[i].taskIds))
    ensures shards[i].files == set f | f in AllFiles(TaskMap(tasks), shards[i].taskIds)
  {
    var g := GroupsOf(TaskMap(tasks), estimates, shards)[i];
    assert Holds(shards[i], g, i, |shards|);
    GroupContents(TaskMap(tasks), estimates, shards[i].taskIds);
  }

  /** The files the tasks list, one task after the other. */
  function AllFiles(taskMap: map<Id, Subtask>, ids: seq<Id>): seq<string> {
    if ids == [] then []
    else
      var last := ids[|ids| - 1];
      AllFiles(taskMap, ids[..|ids| - 1]) + if last in taskMap then taskMap[last].files else []
  }

  lemma {:induction false} GroupContents(taskMap: map<Id, Subtask>, estimates: map<string, int>, ids: seq<Id>)
    ensures TokensOf(Items(taskMap, ids, estimates)) == Estimate(estimates, AllFiles(taskMap, ids))
    ensures FilesOf(Items(taskMap, ids, estimates)) == Names(AllFiles(taskMap, ids))
  {
    if ids != [] {
      var init, last := ids[..|ids| - 1], ids[|ids| - 1];
      GroupContents(taskMap, estimates, init);
      var t := ItemOf(taskMap, estimates, last);
      ItemsAppend(taskMap, estimates, init, last);
      assert ids == init + [last];
      GroupAdd(Items(taskMap, init, estimates), t);
      EstimateAdds(estimates, AllFiles(taskMap, init), t.files);
      NamesAdd(AllFiles(taskMap, init), t.files);
    }
  }

  lemma ItemsAppend(taskMap: map<Id, Subtask>, estimates: map<string, int>, ids: seq<Id>, last: Id)
    ensures Items(taskMap, ids + [last], estimates) ==
      Items(taskMap, ids, estimates) + [ItemOf(taskMap, estimates, last)]
    ensures AllFiles(taskMap, ids + [last]) ==
      AllFiles(taskMap, ids) + ItemOf(taskMap, estimates, last).files
  {
    assert (ids + [last])[..|ids|] == ids;
  }

  lemma NamesAdd(a: seq<string>, b: seq<string>)
    ensures Names(a + b) == Names(a) + Names(b)
  {
  }

  /** With non-negative estimates no contiguous split of the sorted tasks into groups that pass the
      same admission test has fewer groups than there are shards. */
  lemma FewestShards(c: ShardConfig, tasks: seq<Subtask>, estimates: map<string, int>,
                     shards: seq<Shard>, other: seq<Group>)
    requires Sharding(c, tasks, estimates, shards)
    requires forall f :: f in estimates ==> estimates[f] >= 0
    requires Split(c, Items(TaskMap(tasks), OrderOf(shards), estimates), other)
    ensures |shards| <= |other|
  {
    var items := Items(TaskMap(tasks), OrderOf(shards), estimates);
    forall i | 0 <= i < |items|
      ensures items[i].tokens >= 0
    {
      EstimateNonNegative(estimates, items[i].files);
    }
    GreedyOptimal(c, items, GroupsOf(TaskMap(tasks), estimates, shards), other);
  }

  /** The order in which the tasks were sorted determines the shards. */
  lemma ShardsDetermined(c: ShardConfig, tasks: seq<Subtask>, estimates: map<string, int>, a: seq<Shard>, b: seq<Shard>)
    requires Sharding(c, tasks, estimates, a) && Sharding(c, tasks, estimates, b) && OrderOf(a) == OrderOf(b)
    ensures a == b
  {
    var g, h := GroupsOf(TaskMap(tasks), estimates, a), GroupsOf(TaskMap(tasks), estimates, b);
    GreedyUnique(c, Items(TaskMap(tasks), OrderOf(a), estimates), g, h);
    forall i | 0 <= i < |a|
      ensures a[i] == b[i]
    {
      assert Holds(a[i], g[i], i, |a|) && Holds(b[i], g[i], i, |b|);
    }
  }

  /** Without cycles a dependency sits in an earlier shard, or earlier in the same one. */
  lemma DependencyShardedFirst(c: ShardConfig, tasks: seq<Subtask>, estimates: map<string, int>,
                               shards: seq<Shard>, i: nat, a: nat, j: nat, b: nat)
    requires Sharding(c, tasks, estimates, shards) && !Cyclic(TaskGraph(tasks))
    requires i < |shards| && a < |shards[i].taskIds| && j < |shards| && b < |shards[j].taskIds|
    requires Edge(TaskGraph(tasks), shards[i].taskIds[a], shards[j].taskIds[b])
    ensures i < j || (i == j && a < b)
  {
    InGroupOrder(IdLists(shards), i, a, j, b);
  }

  lemma InGroupOrder<T>(lists: seq<seq<T>>, i: nat, a: nat, j: nat, b: nat)
    requires i < |lists| && a < |lists[i]| && j < |lists| && b < |lists[j]|
    ensures EndOf(lists, i) + a < |Flatten(lists)| && Flatten(lists)[EndOf(lists, i) + a] == lists[i][a]
    ensures EndOf(lists, j) + b < |Flatten(lists)| && Flatten(lists)[EndOf(lists, j) + b] == lists[j][b]
    ensures EndOf(lists, i) + a < EndOf(lists, j) + b ==> i < j || (i == j && a < b)
  {
    GroupSlice(lists, i);
    GroupSlice(lists, j);
    if j < i { EndsAscend(lists, j + 1, i); }
  }

  lemma {:induction false} EndsAscend<T>(gs: seq<seq<T>>, i: nat, j: nat)
    requires i <= j <= |gs|
    ensures EndOf(gs, i) <= EndOf(gs, j)
    decreases j
  {
    if i < j {
      GroupSlice(gs, j - 1);
      EndsAscend(gs, i, j - 1);
    }
  }
}
