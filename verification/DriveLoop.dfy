/**
  The task loops of `execute` and `continue_execution` over a task graph.
 */
module DriveLoops {
  import opened Options
  import opened Ids
  import opened GraphSpec
  import opened KahnSpec
  import opened TaskGraphs
  import opened Protocols
  import opened Executors
  import opened ToolPlans
  import LC = LoopControllers

  type Statuses = map<Id, TaskStatus>

  predicate Started(s: TaskStatus) {
    s in {Running, Completed, Failed}
  }

  predicate Stopped(s: TaskStatus) {
    s in {Failed, Blocked}
  }

  /** The statuses of tasks that are neither pending nor running. */
  const SETTLED: set<TaskStatus> := {Ready, Completed, Failed, Skipped, Blocked}

  /** What every moment between two task executions satisfies. */
  ghost predicate Consistent(g: Graph, st: Statuses) {
    && st.Keys == g.deps.Keys
    && (forall x {:trigger InUse(st, x)} :: InUse(st, x))
    && (forall p, n {:trigger EdgeAt(g, st, p, n)} :: EdgeAt(g, st, p, n))
  }

  /** READY and SKIPPED are never entered. */
  predicate InUse(st: Statuses, x: Id) {
    x in st ==> st[x] !in {Ready, Skipped}
  }

  ghost predicate EdgeAt(g: Graph, st: Statuses, p: Id, n: Id) {
    Edge(g, p, n) && p in st && n in st ==> EdgeOk(st[p], st[n])
  }

  /** A dependent only starts after its dependency completed, and is blocked once that stopped. */
  predicate EdgeOk(dep: TaskStatus, dependent: TaskStatus) {
    (Started(dependent) ==> dep == Completed) && (Stopped(dep) ==> dependent == Blocked)
  }

  /** One step of a run: terminal statuses stay, and whatever enters RUNNING had all its in-graph
      dependencies completed. */
  ghost predicate Advances(g: Graph, s: Statuses, t: Statuses) {
    && s.Keys == t.Keys
    && (forall x {:trigger KeepsTerminal(s, t, x)} :: KeepsTerminal(s, t, x))
    && (forall n {:trigger StartsEnabled(g, s, t, n)} :: StartsEnabled(g, s, t, n))
  }

  predicate KeepsTerminal(s: Statuses, t: Statuses, x: Id) {
    x in s && s[x].Terminal() ==> x in t && t[x] == s[x]
  }

  ghost predicate StartsEnabled(g: Graph, s: Statuses, t: Statuses, n: Id) {
    n in s && n in t && !Started(s[n]) && Started(t[n]) ==> forall p :: Edge(g, p, n) && p in s ==> s[p] == Completed
  }

  /** Every moment is consistent and every step advances. */
  ghost predicate GoodTrace(g: Graph, trace: seq<Statuses>) {
    forall i {:trigger Moment(g, trace, i)} :: 0 <= i < |trace| ==> Moment(g, trace, i)
  }

  ghost predicate Moment(g: Graph, trace: seq<Statuses>, i: nat)
    requires i < |trace|
  {
    Consistent(g, trace[i]) && (i > 0 ==> Advances(g, trace[i - 1], trace[i]))
  }

  lemma GoodTraceExtend(g: Graph, trace: seq<Statuses>, s: Statuses)
    requires GoodTrace(g, trace) && Consistent(g, s)
    requires trace != [] ==> Advances(g, trace[|trace| - 1], s)
    ensures GoodTrace(g, trace + [s])
  {
    var all := trace + [s];
    forall i | 0 <= i < |all|
      ensures Moment(g, all, i)
    {
      if i < |trace| { assert Moment(g, trace, i); }
    }
  }

  /** Every transitive in-graph dependent of a failed task is blocked. */
  lemma {:induction false} FailureBlocksAll(g: Graph, st: Statuses, c: seq<Id>)
    requires Consistent(g, st) && IsPath(g, c) && |c| >= 2 && c[0] in st && Stopped(st[c[0]])
    ensures c[|c| - 1] in st && st[c[|c| - 1]] == Blocked
    decreases |c|
  {
    assert Edge(g, c[0], c[1]) && EdgeAt(g, st, c[0], c[1]);
    if |c| > 2 { FailureBlocksAll(g, st, c[1..]); }
  }

  /** Along a run statuses that have become terminal never change. */
  lemma {:induction false} TerminalForever(g: Graph, trace: seq<Statuses>, i: nat, j: nat, x: Id)
    requires GoodTrace(g, trace) && i <= j < |trace| && x in trace[i] && trace[i][x].Terminal()
    ensures x in trace[j] && trace[j][x] == trace[i][x]
    decreases j
  {
    if i < j {
      TerminalForever(g, trace, i, j - 1, x);
      assert Moment(g, trace, j) && KeepsTerminal(trace[j - 1], trace[j], x);
    }
  }

  ghost predicate DoneBefore(o: seq<Id>, st: Statuses, k: nat) {
    k <= |o| && forall j :: 0 <= j < k ==> o[j] in st && st[o[j]].Terminal()
  }

  /** If the task is pending, all its in-graph dependencies have completed. */
  ghost predicate Enabled(g: Graph, st: Statuses, x: Id) {
    x in st && (st[x] == Pending ==> forall p :: Edge(g, p, x) ==> p in st && st[p] == Completed)
  }

  /** In a topological order whose first `k` tasks are terminal, the next one is enabled. */
  lemma PendingIsEnabled(g: Graph, o: seq<Id>, st: Statuses, k: nat)
    requires Consistent(g, st) && Topological(g, o) && k < |o| && DoneBefore(o, st, k)
    ensures Enabled(g, st, o[k])
  {
    assert o[k] in o;
    forall p | st[o[k]] == Pending && Edge(g, p, o[k])
      ensures p in st && st[p] == Completed
    {
      var i :| 0 <= i < |o| && o[i] == p;
      assert Edge(g, o[i], o[k]);
      assert EdgeAt(g, st, p, o[k]) && InUse(st, p);
    }
  }

  /** Starting an enabled task, and finishing it well. */
  lemma StepTo(g: Graph, st: Statuses, x: Id, s: TaskStatus)
    requires Consistent(g, st) && Enabled(g, st, x) && st[x] == Pending && s in {Running, Completed}
    ensures Consistent(g, st[x := s]) && Advances(g, st, st[x := s])
  {
    var t := st[x := s];
    forall p, n
      ensures EdgeAt(g, t, p, n)
    {
      assert EdgeAt(g, st, p, n);
    }
    forall y
      ensures InUse(t, y) && KeepsTerminal(st, t, y) && StartsEnabled(g, st, t, y)
    {
      assert InUse(st, y);
    }
  }

  /** Failing an enabled task and blocking what is pending-reachable from it. */
  lemma StepToFailed(g: Graph, st: Statuses, x: Id, blocked: seq<Id>)
    requires Consistent(g, st) && Enabled(g, st, x) && st[x] == Pending
    requires forall y :: y in blocked <==>
      y in st && st[x := Failed][y] == Pending && PendingReachable(g, st[x := Failed], x, y)
    ensures var t := MarkBlocked(st[x := Failed], Elements(blocked));
      Consistent(g, t) && Advances(g, st, t)
  {
    var f := st[x := Failed];
    var t := MarkBlocked(f, Elements(blocked));
    forall p, n
      ensures EdgeAt(g, t, p, n)
    {
      assert EdgeAt(g, st, p, n);
      if Edge(g, p, n) && (p == x || p in blocked) && f[n] == Pending {
        PendingStep(g, f, x, p, n);
      }
      assert InUse(st, n) && InUse(st, p);
    }
    forall y
      ensures InUse(t, y) && KeepsTerminal(st, t, y) && StartsEnabled(g, st, t, y)
    {
      assert InUse(st, y);
    }
  }

  /** `t` is `s` after the failure of `x`, if `o` is one, was propagated. */
  ghost predicate Propagated(g: Graph, s: Statuses, x: Id, o: TaskOutcome, blocked: seq<Id>, t: Statuses) {
    if o.TaskFailed? then
      && t == MarkBlocked(s, Elements(blocked))
      && forall y :: y in blocked <==> y in s && s[y] == Pending && PendingReachable(g, s, x, y)
    else t == s
  }

  /** A run of this task, on the answers of the world, ends with this outcome. */
  ghost predicate RanAs(w: World, p: Policy, t: Subtask, o: TaskOutcome) {
    exists at: nat, ev, canFix, canCall {:trigger TaskRun(Script(w, p, t, at), ev, o, canFix, canCall)} ::
      TaskRun(Script(w, p, t, at), ev, o, canFix, canCall)
  }

  ghost predicate TaskRun(s: Script, ev: seq<Event>, o: TaskOutcome, canFix: bool, canCall: bool) {
    Disciplined(s, ev) && Ends(s, ev, o, canFix, canCall)
  }

  /** Every step of the trace is a turn of one task, and comes from a run of its own subtask. */
  ghost predicate Caused(w: World, p: Policy, subtasks: map<Id, Subtask>, trace: seq<Statuses>) {
    forall i {:trigger CausedAt(w, p, subtasks, trace, i)} :: 1 <= i < |trace| ==> CausedAt(w, p, subtasks, trace, i)
  }

  ghost predicate CausedAt(w: World, p: Policy, subtasks: map<Id, Subtask>, trace: seq<Statuses>, i: nat)
    requires 1 <= i < |trace|
  {
    exists x, o {:trigger TurnOf(w, p, subtasks, trace[i - 1], trace[i], x, o)} ::
      TurnOf(w, p, subtasks, trace[i - 1], trace[i], x, o)
  }

  ghost predicate TurnOf(w: World, p: Policy, subtasks: map<Id, Subtask>, s: Statuses, t: Statuses,
                         x: Id, o: TaskOutcome) {
    x in subtasks && Turned(s, t, x, o) && RanAs(w, p, subtasks[x], o)
  }

  lemma CausedExtend(w: World, p: Policy, subtasks: map<Id, Subtask>, trace: seq<Statuses>, t: Statuses,
                     x: Id, o: TaskOutcome)
    requires Caused(w, p, subtasks, trace) && trace != [] && TurnOf(w, p, subtasks, Last(trace), t, x, o)
    ensures Caused(w, p, subtasks, trace + [t])
  {
    var all := trace + [t];
    forall i | 1 <= i < |all|
      ensures CausedAt(w, p, subtasks, all, i)
    {
      if i < |trace| {
        assert CausedAt(w, p, subtasks, trace, i);
        var y, e :| TurnOf(w, p, subtasks, trace[i - 1], trace[i], y, e);
        assert TurnOf(w, p, subtasks, all[i - 1], all[i], y, e);
      } else {
        assert TurnOf(w, p, subtasks, all[i - 1], all[i], x, o);
      }
    }
  }

  lemma RecordExtend(g: Graph, w: World, p: Policy, subtasks: map<Id, Subtask>, trace: seq<Statuses>, t: Statuses,
                     x: Id, o: TaskOutcome)
    requires GoodTrace(g, trace) && Caused(w, p, subtasks, trace) && trace != []
    requires Consistent(g, t) && Advances(g, Last(trace), t) && TurnOf(w, p, subtasks, Last(trace), t, x, o)
    ensures var all := trace + [t];
      GoodTrace(g, all) && Caused(w, p, subtasks, all) && Last(all) == t && trace < all && all != []
  {
    GoodTraceExtend(g, trace, t);
    CausedExtend(w, p, subtasks, trace, t, x, o);
  }

  /** A task that was pending and has completed or failed had a run that ended so. */
  lemma {:induction false} OutcomeRan(w: World, p: Policy, subtasks: map<Id, Subtask>, trace: seq<Statuses>, x: Id)
    requires Caused(w, p, subtasks, trace) && trace != []
    requires x in trace[0] && trace[0][x] == Pending && x in Last(trace) && Last(trace)[x] in {Completed, Failed}
    ensures x in subtasks && RanAs(w, p, subtasks[x], if Last(trace)[x] == Completed then TaskDone else TaskFailed)
    decreases |trace|
  {
    var n := |trace| - 1;
    assert CausedAt(w, p, subtasks, trace, n);
    var y, o :| TurnOf(w, p, subtasks, trace[n - 1], trace[n], y, o);
    if x in trace[n - 1] && trace[n - 1][x] == trace[n][x] {
      CausedPrefix(w, p, subtasks, trace, n);
      OutcomeRan(w, p, subtasks, trace[..n], x);
    }
  }

  lemma CausedPrefix(w: World, p: Policy, subtasks: map<Id, Subtask>, trace: seq<Statuses>, n: nat)
    requires Caused(w, p, subtasks, trace) && n <= |trace|
    ensures Caused(w, p, subtasks, trace[..n])
  {
    forall i | 1 <= i < n
      ensures CausedAt(w, p, subtasks, trace[..n], i)
    {
      assert CausedAt(w, p, subtasks, trace, i);
    }
  }

  /** If the subtask has completed or failed, a run of it ended so. */
  ghost predicate Ended(exec: Executor, t: Subtask, st: Statuses) {
    t.id in st && (st[t.id] == Completed ==> RanAs(exec.world, exec.policy, t, TaskDone)) &&
    (st[t.id] == Failed ==> RanAs(exec.world, exec.policy, t, TaskFailed))
  }

  lemma PlanEnded(exec: Executor, g: Graph, subtasks: map<Id, Subtask>, plan: seq<Subtask>, trace: seq<Statuses>)
    requires GoodTrace(g, trace) && trace != [] && PlanIn(g, subtasks, plan) && AllIn(trace[0], {Pending})
    requires Caused(exec.world, exec.policy, subtasks, trace)
    ensures forall i {:trigger Ended(exec, plan[i], Last(trace))} ::
      0 <= i < |plan| ==> Ended(exec, plan[i], Last(trace))
  {
    forall i | 0 <= i < |plan|
      ensures Ended(exec, plan[i], Last(trace))
    {
      assert Moment(g, trace, 0) && Moment(g, trace, |trace| - 1);
      if Last(trace)[plan[i].id] in {Completed, Failed} {
        OutcomeRan(exec.world, exec.policy, subtasks, trace, plan[i].id);
      }
    }
  }

  /** The graph and the dictionary hold exactly the subtasks of the plan, each with the dependencies
      it lists. */
  ghost predicate PlanIn(g: Graph, byId: map<Id, Subtask>, plan: seq<Subtask>) {
    && g.ids == SubtaskIds(plan) && g.deps.Keys == byId.Keys && (forall x :: x in byId <==> x in g.ids)
    && forall i {:trigger plan[i]} :: 0 <= i < |plan| ==>
        plan[i].id in byId && g.deps[plan[i].id] == plan[i].dependencies && byId[plan[i].id] == plan[i]
  }

  /** At moment `m` subtask `i` respects subtask `j`, if it lists it: it has started only if that one
      has completed, and had before, and is blocked if that one has failed or is blocked itself. */
  ghost predicate RespectsAt(plan: seq<Subtask>, trace: seq<Statuses>, m: nat, i: nat, j: nat)
    requires m < |trace| && i < |plan| && j < |plan|
  {
    var x, d, t := plan[i].id, plan[j].id, trace[m];
    x in t && d in t && (d in plan[i].dependencies ==>
      && (t[x] in {Running, Completed, Failed} ==> t[d] == Completed)
      && (t[d] in {Failed, Blocked} ==> t[x] == Blocked)
      && (m > 0 && x in trace[m - 1] && trace[m - 1][x] == Pending && t[x] in {Running, Completed, Failed} ==>
          d in trace[m - 1] && trace[m - 1][d] == Completed))
  }

  ghost predicate Respects(plan: seq<Subtask>, trace: seq<Statuses>) {
    forall m, i, j {:trigger RespectsAt(plan, trace, m, i, j)} ::
      0 <= m < |trace| && 0 <= i < |plan| && 0 <= j < |plan| ==> RespectsAt(plan, trace, m, i, j)
  }

  /** A good trace over the graph of a plan respects what its subtasks list. */
  lemma PlanRespected(g: Graph, byId: map<Id, Subtask>, plan: seq<Subtask>, trace: seq<Statuses>)
    requires GoodTrace(g, trace) && PlanIn(g, byId, plan)
    ensures Respects(plan, trace)
  {
    forall m, i, j | 0 <= m < |trace| && 0 <= i < |plan| && 0 <= j < |plan|
      ensures RespectsAt(plan, trace, m, i, j)
    {
      var x, d := plan[i].id, plan[j].id;
      assert Moment(g, trace, m);
      assert x in g.deps && d in g.deps;
      assert Edge(g, d, x) <==> d in plan[i].dependencies;
      assert EdgeAt(g, trace[m], d, x);
      if m > 0 { assert StartsEnabled(g, trace[m - 1], trace[m], x); }
    }
  }

  /** How a drive loop ends: with a verdict, waiting for more iterations, or on an exception. */
  datatype RunResult = Finished(success: bool) | NeedsContinuation | RunError

  class Session {
    const exec: Executor
    const graph: TaskGraph
    const subtasks: map<Id, Subtask>
    /** The iterations granted so far. */
    ghost var budget: int

    constructor (exec: Executor, graph: TaskGraph, subtasks: map<Id, Subtask>)
      ensures this.exec == exec && this.graph == graph && this.subtasks == subtasks
      ensures budget == exec.loop.maxIterations
    {
      this.exec, this.graph, this.subtasks := exec, graph, subtasks;
      budget := exec.loop.maxIterations;
    }

    ghost predicate Valid()
      reads this`budget, exec.loop, graph, graph.repr`dependents, graph.repr`status
    {
      graph.Valid() && exec.loop.Valid() && exec.loop.maxIterations == budget && graph.nodes.Keys <= subtasks.Keys &&
      Consistent(graph.View(), graph.Statuses())
    }

    /** One pending task for each subtask. */
    ghost predicate Unstarted(tasks: seq<Subtask>)
      reads this`budget, exec.loop, graph, graph.repr`dependents, graph.repr`status
    {
      Valid() && PlanIn(graph.View(), subtasks, tasks) && AllIn(graph.Statuses(), {Pending})
    }

    lemma NotStarted(tasks: seq<Subtask>)
      requires exec.loop.Valid() && budget == exec.loop.maxIterations && Holds(graph, tasks, subtasks)
      ensures Unstarted(tasks)
    {
      PendingConsistent(graph.View(), graph.Statuses());
    }

    /** `_execute_task` on the node filed under `x`. */
    method RunNode(x: Id) returns (o: TaskOutcome)
      requires graph.Valid() && x in graph.nodes && x in subtasks
      requires exec.loop.Valid() && exec.loop.state.Running() && graph.Statuses()[x] !in {Ready, Skipped}
      modifies exec.loop, graph.repr`status
      ensures exec.loop.Valid() && graph.Valid()
      ensures o.TaskRaised? <==> old(graph.Statuses())[x] != Pending
      ensures graph.Statuses() == old(graph.Statuses())[x := AfterTask(o, old(graph.Statuses())[x])]
      ensures if o.TaskPaused? then exec.loop.state == LC.Paused else exec.loop.state.Running()
      ensures RanAs(exec.world, exec.policy, subtasks[x], o)
      ensures exec.loop.maxIterations == old(exec.loop.maxIterations)
    {
      var node := graph.nodes[x];
      ghost var ev, s;
      s := Script(exec.world, exec.policy, subtasks[x], |exec.loop.iterations|);
      o, ev := exec.ExecuteTask(node, subtasks[x]);
      assert TaskRun(s, ev, o, exec.FixLeft(), exec.CanCall());
    }

    /** After a failure, blocks what is pending-reachable from the task. */
    method Propagate(x: Id, o: TaskOutcome) returns (ghost blocked: seq<Id>)
      requires graph.Valid()
      modifies graph.repr`status
      ensures graph.Valid() && Propagated(graph.View(), old(graph.Statuses()), x, o, blocked, graph.Statuses())
    {
      blocked := [];
      if o.TaskFailed? {
        var b := graph.PropagateFailure(x);
        blocked := b;
      }
    }

    /** The task, and the propagation of its failure. */
    method RunAndPropagate(x: Id) returns (o: TaskOutcome, ghost blocked: seq<Id>)
      requires graph.Valid() && x in graph.nodes && x in subtasks
      requires exec.loop.Valid() && exec.loop.state.Running() && graph.Statuses()[x] !in {Ready, Skipped}
      modifies exec.loop, graph.repr`status
      ensures graph.Valid() && exec.loop.Valid()
      ensures o.TaskRaised? <==> old(graph.Statuses())[x] != Pending
      ensures if o.TaskPaused? then exec.loop.state == LC.Paused else exec.loop.state.Running()
      ensures var after := old(graph.Statuses())[x := AfterTask(o, old(graph.Statuses())[x])];
        Propagated(graph.View(), after, x, o, blocked, graph.Statuses())
      ensures RanAs(exec.world, exec.policy, subtasks[x], o)
      ensures exec.loop.maxIterations == old(exec.loop.maxIterations)
    {
      o := RunNode(x);
      blocked := Propagate(x, o);
    }

    /** Run the task and, if it failed, block its dependents. */
    method Step(x: Id) returns (o: TaskOutcome)
      requires Valid() && exec.loop.state.Running() && Enabled(graph.View(), graph.Statuses(), x)
      modifies exec.loop, graph.repr`status
      ensures Valid() && Advances(graph.View(), old(graph.Statuses()), graph.Statuses())
      ensures TurnOf(exec.world, exec.policy, subtasks, old(graph.Statuses()), graph.Statuses(), x, o)
      ensures if o.TaskPaused? then exec.loop.state == LC.Paused else exec.loop.state.Running()
    {
      ghost var g, st := graph.View(), graph.Statuses();
      ghost var blocked;
      assert InUse(st, x);
      o, blocked := RunAndPropagate(x);
      if o.TaskFailed? {
        StepToFailed(g, st, x, blocked);
      } else if !o.TaskRaised? {
        StepTo(g, st, x, AfterTask(o, st[x]));
      } else {
        assert st[x := st[x]] == st;
        assert Advances(g, st, st) by {
          assert forall y :: KeepsTerminal(st, st, y) && StartsEnabled(g, st, st, y);
        }
      }
    }

    /** Ends the loop; the graph is not touched. */
    method Stop(reason: LC.TerminationReason)
      requires Valid()
      modifies exec.loop`state
      ensures Valid() && graph.Statuses() == old(graph.Statuses()) && exec.loop.state == LC.FinalState(reason)
    {
      exec.loop.Terminate(reason);
    }

    method StopIf(b: bool, reason: LC.TerminationReason)
      requires Valid()
      modifies exec.loop`state
      ensures Valid() && graph.Statuses() == old(graph.Statuses())
      ensures exec.loop.state == if b then LC.FinalState(reason) else old(exec.loop.state)
    {
      if b { Stop(reason); }
    }

    /** The trace is good and its last moment is now. */
    ghost predicate Recorded(trace: seq<Statuses>)
      reads this`budget, exec.loop, graph, graph.repr`dependents, graph.repr`status
    {
      && Valid() && GoodTrace(graph.View(), trace) && trace != [] && Last(trace) == graph.Statuses()
      && Caused(exec.world, exec.policy, subtasks, trace)
    }

    /** A finished task gives the next one a fresh fixer budget. */
    method Refresh(o: TaskOutcome, ghost trace: seq<Statuses>)
      requires Recorded(trace)
      modifies exec.loop`fixIterationCount, exec.loop`fixBase
      ensures Recorded(trace) && exec.loop.state == old(exec.loop.state)
      ensures o in {TaskDone, TaskFailed} ==> exec.loop.fixIterationCount == 0
    {
      if o in {TaskDone, TaskFailed} { exec.loop.ResetFixCounter(); }
    }

    /** The task `order[k]` and the propagation of its failure, recorded in the trace. */
    method RecordedStep(order: seq<Id>, k: nat, ghost trace0: seq<Statuses>)
      returns (o: TaskOutcome, ghost trace: seq<Statuses>)
      requires Recorded(trace0) && exec.loop.state.Running()
      requires Topological(graph.View(), order) && k < |order| && DoneBefore(order, Last(trace0), k)
      modifies exec.loop, graph.repr`status
      ensures Recorded(trace) && trace0 < trace
      ensures Turned(Last(trace0), Last(trace), order[k], o)
      ensures if o.TaskPaused? then exec.loop.state == LC.Paused else exec.loop.state.Running()
    {
      ghost var g, st := graph.View(), graph.Statuses();
      PendingIsEnabled(g, order, st, k);
      o := Step(order[k]);
      ghost var now := graph.Statuses();
      RecordExtend(g, exec.world, exec.policy, subtasks, trace0, now, order[k], o);
      trace := trace0 + [now];
    }

    /** One turn of a drive loop: the task, the propagation of its failure, the reset of the fixer
        counter. */
    method Turn(order: seq<Id>, k: nat, ghost trace0: seq<Statuses>)
      returns (o: TaskOutcome, ghost trace: seq<Statuses>)
      requires Recorded(trace0) && exec.loop.state.Running()
      requires Topological(graph.View(), order) && k < |order| && DoneBefore(order, Last(trace0), k)
      modifies exec.loop, graph.repr`status
      ensures Recorded(trace) && trace0 < trace
      ensures Turned(Last(trace0), Last(trace), order[k], o)
      ensures if o.TaskPaused? then exec.loop.state == LC.Paused else exec.loop.state.Running()
      ensures o in {TaskDone, TaskFailed} ==> exec.loop.fixIterationCount == 0
    {
      o, trace := RecordedStep(order, k, trace0);
      Refresh(o, trace);
    }

    /** One pass through the loop of `execute`. */
    method ExecuteOne(order: seq<Id>, k: nat, ghost trace0: seq<Statuses>)
      returns (stop: Option<RunResult>, ghost trace: seq<Statuses>)
      requires Recorded(trace0) && exec.loop.state.Running()
      requires Topological(graph.View(), order) && k < |order| && Worked(order, Last(trace0), k)
      modifies exec.loop, graph.repr`status
      ensures Recorded(trace) && trace0 <= trace
      ensures stop.None? ==> Worked(order, Last(trace), k + 1) && exec.loop.state.Running()
      ensures stop.Some? ==> Interrupted(stop.value, Last(trace)) && Paused(stop.value, exec.loop.state)
      ensures stop == Some(NeedsContinuation) ==> StuckBefore(order, Last(trace), |order|)
    {
      WorkedDone(order, Last(trace0), k);
      var o;
      o, trace := Turn(order, k, trace0);
      WorkedTurn(order, Last(trace0), Last(trace), k, o);
      if o.TaskRaised? { return Some(RunError), trace; }
      if o.TaskPaused? { return Some(NeedsContinuation), trace; }
      return None, trace;
    }

    /** The task loop of `execute`. */
    method ExecuteAll(order: seq<Id>, abortAt: nat, ghost trace0: seq<Statuses>)
      returns (stop: Option<RunResult>, ghost trace: seq<Statuses>)
      requires Recorded(trace0) && exec.loop.state.Running()
      requires Topological(graph.View(), order) && Worked(order, Last(trace0), 0)
      modifies exec.loop, graph.repr`status
      ensures Recorded(trace) && trace0 <= trace
      ensures stop.None? ==> Worked(order, Last(trace), if abortAt < |order| then abortAt else |order|)
      ensures abortAt == 0 ==> stop.None? && trace == trace0
      ensures stop.Some? ==> Interrupted(stop.value, Last(trace)) && Paused(stop.value, exec.loop.state)
      ensures stop == Some(NeedsContinuation) ==> StuckBefore(order, Last(trace), |order|)
    {
      trace := trace0;
      for k := 0 to |order|
        invariant Recorded(trace) && exec.loop.state.Running() && trace0 <= trace
        invariant Worked(order, Last(trace), k) && k <= abortAt && (k == 0 ==> trace == trace0)
      {
        if k == abortAt { Stop(LC.UserAbort); }
        if !exec.loop.state.Running() { return None, trace; }
        stop, trace := ExecuteOne(order, k, trace);
        if stop.Some? { return; }
      }
      return None, trace;
    }

    /** The closing verdict of `execute` on what stopped. */
    method Close() returns (r: RunResult)
      requires Valid()
      modifies exec.loop`state
      ensures Valid() && graph.Statuses() == old(graph.Statuses())
      ensures r == Finished(!SomeStopped(graph.Statuses())) && Reported(r, exec.loop.state)
    {
      var stopped := AnyStopped();
      Stop(if stopped then LC.UnrecoverableFailure else LC.Success);
      return Finished(!stopped);
    }

    /** Whether some task failed or is blocked. */
    predicate AnyStopped()
      requires graph.Keyed()
      reads graph`nodes, graph`repr, graph.repr`status
      ensures AnyStopped() <==> SomeStopped(graph.Statuses())
    {
      assert forall x :: x in graph.nodes ==> graph.Statuses()[x] == graph.nodes[x].status;
      exists x :: x in graph.nodes && Stopped(graph.nodes[x].status)
    }

    /** Whether the status of every task is in `allowed`. */
    predicate AllAre(allowed: set<TaskStatus>)
      requires graph.Keyed()
      reads graph`nodes, graph`repr, graph.repr`status
      ensures AllAre(allowed) <==> AllIn(graph.Statuses(), allowed)
    {
      assert forall x :: x in graph.nodes ==> graph.Statuses()[x] == graph.nodes[x].status;
      forall x :: x in graph.nodes ==> graph.nodes[x].status in allowed
    }

    /** The execution order; without one the exception ends the loop. */
    method Sort() returns (sorted: SortOutcome)
      requires Valid() && exec.loop.state.Running()
      modifies exec.loop`state, graph`executionOrder
      ensures Valid() && graph.View() == old(graph.View()) && graph.Statuses() == old(graph.Statuses())
      ensures SortSpec(graph.View(), sorted)
      ensures if sorted.Order? then exec.loop.state.Running() else Reported(RunError, exec.loop.state)
    {
      sorted := SortGraph();
      StopIf(!sorted.Order?, LC.FatalError);
    }

    method SortGraph() returns (sorted: SortOutcome)
      requires Valid()
      modifies graph`executionOrder
      ensures Valid() && graph.View() == old(graph.View()) && graph.Statuses() == old(graph.Statuses())
      ensures SortSpec(graph.View(), sorted)
    {
      ghost var g, st := graph.View(), graph.Statuses();
      sorted := graph.TopologicalSort();
      assert graph.View() == g;
      assert graph.Statuses() == st;
    }

    method Begin() returns (sorted: SortOutcome, ghost trace: seq<Statuses>)
      requires Valid() && exec.loop.state.Running()
      modifies exec.loop`state, graph`executionOrder
      ensures Recorded(trace) && trace == [old(graph.Statuses())]
      ensures graph.View() == old(graph.View()) && SortSpec(graph.View(), sorted)
      ensures if sorted.Order? then exec.loop.state.Running() else Reported(RunError, exec.loop.state)
    {
      trace := [graph.Statuses()];
      sorted := Sort();
      assert Moment(graph.View(), trace, 0);
    }

    /** An exception in the loop ends it. */
    method Leave(stop: RunResult)
      requires Valid()
      modifies exec.loop`state
      ensures Valid() && graph.Statuses() == old(graph.Statuses())
      ensures exec.loop.state == if stop.RunError? then LC.FinalState(LC.FatalError) else old(exec.loop.state)
    {
      StopIf(stop.RunError?, LC.FatalError);
    }

    /** The task phase of `execute` on a fresh graph. An external abort may arrive before task number
        `abortAt`. Without one, finishing means that every task completed or failed, so success means
        that all completed; a blocked task is never passed over, it raises. With one, success never means
        that: it is reported for what is still pending, down to a run that has done nothing. */
    method Execute(abortAt: nat) returns (r: RunResult, ghost trace: seq<Statuses>)
      requires Valid() && exec.loop.state.Running() && AllIn(graph.Statuses(), {Pending})
      modifies exec.loop, graph`executionOrder, graph.repr`status
      ensures Recorded(trace) && trace[0] == old(graph.Statuses())
      ensures Reported(r, exec.loop.state) && (r.Finished? ==> (r.success <==> !SomeStopped(Last(trace))))
      ensures r.Finished? && abortAt >= |graph.ids| ==> AllIn(Last(trace), {Completed, Failed})
      ensures r == Finished(true) ==> (AllIn(Last(trace), {Completed}) <==> abortAt >= |graph.ids|)
      ensures abortAt == 0 && !Cyclic(graph.View()) && !LateRepeat(graph.View()) ==>
        r == Finished(true) && AllIn(Last(trace), {Pending})
      ensures !r.Finished? ==> Interrupted(r, Last(trace)) || Cyclic(graph.View()) || LateRepeat(graph.View())
      ensures Cyclic(graph.View()) || LateRepeat(graph.View()) ==> r == RunError && Last(trace) == trace[0]
      ensures r.NeedsContinuation? ==> StuckSession(graph.View(), Last(trace), |graph.ids|)
    {
      var sorted;
      sorted, trace := Begin();
      if !sorted.Order? { return RunError, trace; }
      WorkedStart(graph.View(), sorted.order, Last(trace));
      var stop;
      stop, trace := ExecuteAll(sorted.order, abortAt, trace);
      WorkedEnd(graph.View(), sorted.order, Last(trace));
      WorkedVerdict(sorted.order, Last(trace), abortAt);
      StuckOnOrder(graph.View(), sorted.order, Last(trace), |sorted.order|);
      r := ConcludeExecute(stop, trace);
    }

    /** The graph is that of the plan, the trace respects what the subtasks list, and whatever has
        completed or failed had a run of its own subtask that ended so. */
    ghost predicate Followed(plan: seq<Subtask>, trace: seq<Statuses>)
      reads this`budget, exec.loop, graph, graph.repr`dependents, graph.repr`status
    {
      && Recorded(trace) && PlanIn(graph.View(), subtasks, plan) && Respects(plan, trace)
      && forall i {:trigger Ended(exec, plan[i], Last(trace))} :: 0 <= i < |plan| ==> Ended(exec, plan[i], Last(trace))
    }

    /** The task phase on the graph of a plan. */
    method ExecutePlan(plan: seq<Subtask>, abortAt: nat) returns (r: RunResult, ghost trace: seq<Statuses>)
      requires Unstarted(plan) && exec.loop.state.Running()
      modifies exec.loop, graph`executionOrder, graph.repr`status
      ensures Followed(plan, trace) && Reported(r, exec.loop.state)
      ensures r == Finished(true) ==> !SomeStopped(Last(trace))
      ensures r == Finished(true) ==> (AllIn(Last(trace), {Completed}) <==> abortAt >= |plan|)
    {
      ghost var g := graph.View();
      r, trace := Execute(abortAt);
      assert graph.View() == g;
      PlanRespected(g, subtasks, plan, trace);
      PlanEnded(exec, g, subtasks, plan, trace);
    }

    method ConcludeExecute(stop: Option<RunResult>, ghost trace: seq<Statuses>) returns (r: RunResult)
      requires Recorded(trace)
      requires stop.Some? ==> !stop.value.Finished? && Paused(stop.value, exec.loop.state)
      modifies exec.loop`state
      ensures Recorded(trace) && Reported(r, exec.loop.state)
      ensures r == if stop.Some? then stop.value else Finished(!SomeStopped(Last(trace)))
    {
      if stop.Some? {
        Leave(stop.value);
        return stop.value;
      }
      r := Close();
    }

    /** One pass through the loop of `continue_execution`: terminal tasks are skipped. */
    method ContinueOne(order: seq<Id>, k: nat, abortAt: nat, ghost trace0: seq<Statuses>)
      returns (stop: Option<RunResult>, ghost trace: seq<Statuses>)
      requires Recorded(trace0) && exec.loop.state.Running()
      requires Topological(graph.View(), order) && k < |order| && DoneBefore(order, Last(trace0), k)
      modifies exec.loop, graph.repr`status
      ensures Recorded(trace) && Continued(order, k, abortAt, trace0, trace, stop, exec.loop.state)
    {
      assert order[k] in order && order[k] in graph.View().deps;
      if IsTerminal(order[k]) {
        PassedOver(order, k, abortAt, trace0, exec.loop.state);
        return None, trace0;
      }
      if k >= abortAt {
        Stop(LC.UserAbort);
        PassedOver(order, k, abortAt, trace0, exec.loop.state);
        return None, trace0;
      }
      stop, trace := ContinueTask(order, k, trace0);
      RanOn(order, k, abortAt, trace0, trace, stop, exec.loop.state);
    }

    method ContinueTask(order: seq<Id>, k: nat, ghost trace0: seq<Statuses>)
      returns (stop: Option<RunResult>, ghost trace: seq<Statuses>)
      requires Recorded(trace0) && exec.loop.state.Running()
      requires Topological(graph.View(), order) && k < |order| && DoneBefore(order, Last(trace0), k)
      requires order[k] in Last(trace0) && !Last(trace0)[order[k]].Terminal()
      modifies exec.loop, graph.repr`status
      ensures Recorded(trace) && TaskContinued(order, k, trace0, trace, stop, exec.loop.state)
    {
      assert InUse(Last(trace0), order[k]);
      var o;
      o, trace := Turn(order, k, trace0);
      ContinueTurn(order, Last(trace0), Last(trace), k, o);
      if o.TaskRaised? { return Some(RunError), trace; }
      if o.TaskPaused? { return Some(NeedsContinuation), trace; }
      return None, trace;
    }

    /** The task loop of `continue_execution`. */
    method ContinueAll(order: seq<Id>, abortAt: nat, ghost trace0: seq<Statuses>)
      returns (stop: Option<RunResult>, ghost trace: seq<Statuses>)
      requires Recorded(trace0) && exec.loop.state.Running() && Topological(graph.View(), order)
      modifies exec.loop, graph.repr`status
      ensures Recorded(trace) && AllContinued(order, abortAt, trace0, trace, stop, exec.loop.state)
    {
      trace := trace0;
      GoneStart(order, abortAt, trace0);
      for k := 0 to |order|
        invariant Recorded(trace) && exec.loop.state.Running()
        invariant GoneOn(order, k, abortAt, trace0, trace)
      {
        ghost var before := trace;
        stop, trace := ContinueOne(order, k, abortAt, trace);
        GoneNext(order, k, abortAt, trace0, before, trace, stop, exec.loop.state);
        if stop.Some? || !exec.loop.state.Running() { return; }
      }
      GoneThrough(order, abortAt, trace0, trace, exec.loop.state);
      return None, trace;
    }

    predicate IsTerminal(x: Id)
      requires graph.Keyed() && x in graph.nodes
      reads graph`nodes, graph`repr, graph.repr`status
      ensures IsTerminal(x) <==> graph.Statuses()[x].Terminal()
    {
      assert graph.Statuses()[x] == graph.nodes[x].status;
      graph.nodes[x].status.Terminal()
    }

    method Extend(additional: int)
      requires Valid()
      modifies exec.loop`maxIterations, exec.loop`needsUserContinue, exec.loop`state, this`budget
      ensures Valid() && graph.Statuses() == old(graph.Statuses()) && exec.loop.state.Running()
      ensures budget == old(budget) + additional
    {
      Grant(additional);
      budget := budget + additional;
    }

    method Grant(additional: int)
      requires graph.Valid() && exec.loop.Valid()
      modifies exec.loop`maxIterations, exec.loop`needsUserContinue, exec.loop`state
      ensures graph.Valid() && graph.View() == old(graph.View()) && graph.Statuses() == old(graph.Statuses())
      ensures exec.loop.Valid() && exec.loop.state.Running()
      ensures exec.loop.maxIterations == old(exec.loop.maxIterations) + additional
    {
      exec.loop.ExtendIterations(additional);
    }

    /** `continue_execution`. Success always means that every task completed; but a task that a pause
        left RUNNING cannot be started again, so such a run is never finished successfully, and without
        an abort it is not finished at all; nothing else makes the loop raise on a sortable graph. */
    method Continue(additional: int, abortAt: nat) returns (r: RunResult, ghost trace: seq<Statuses>)
      requires Valid()
      modifies exec.loop, this`budget, graph`executionOrder, graph.repr`status
      ensures Recorded(trace) && trace[0] == old(graph.Statuses())
      ensures budget == old(budget) + additional == exec.loop.maxIterations
      ensures Resumed(graph.View(), abortAt, trace[0], Last(trace), r, exec.loop.state)
    {
      Extend(additional);
      var sorted;
      sorted, trace := Begin();
      if !sorted.Order? {
        ResumedUnsorted(graph.View(), sorted, abortAt, trace[0], exec.loop.state);
        return RunError, trace;
      }
      r, trace := ContinueSorted(sorted.order, abortAt, trace);
    }

    /** The same once the execution order is known. */
    method ContinueSorted(order: seq<Id>, abortAt: nat, ghost trace0: seq<Statuses>)
      returns (r: RunResult, ghost trace: seq<Statuses>)
      requires Recorded(trace0) && exec.loop.state.Running() && SortSpec(graph.View(), Order(order))
      modifies exec.loop, graph.repr`status
      ensures Recorded(trace) && trace0 <= trace
      ensures Resumed(graph.View(), abortAt, Last(trace0), Last(trace), r, exec.loop.state)
    {
      ghost var g := graph.View();
      var stop;
      stop, trace := ContinueAll(order, abortAt, trace0);
      ghost var state := exec.loop.state;
      r := Conclude(stop, trace);
      ResumedSorted(g, order, abortAt, trace0, trace, stop, state, r, exec.loop.state);
    }

    method Conclude(stop: Option<RunResult>, ghost trace: seq<Statuses>) returns (r: RunResult)
      requires Recorded(trace)
      requires stop.Some? ==> !stop.value.Finished? && Paused(stop.value, exec.loop.state)
      modifies exec.loop`state
      ensures Recorded(trace)
      ensures r == if stop.Some? then stop.value else Finished(AllIn(Last(trace), {Completed}))
      ensures stop.Some? || r.success || Closed(Last(trace)) ==> Reported(r, exec.loop.state)
      ensures stop.None? && !r.success && !Closed(Last(trace)) ==> exec.loop.state == old(exec.loop.state)
    {
      if stop.Some? {
        Leave(stop.value);
        return stop.value;
      }
      r := Settle();
    }

    /** The closing verdict of `continue_execution`: unlike that of `execute` it asks whether every
        task has completed, and leaves the loop alone while some are still open. */
    method Settle() returns (r: RunResult)
      requires Valid()
      modifies exec.loop`state
      ensures Valid() && graph.Statuses() == old(graph.Statuses())
      ensures r == Finished(AllIn(graph.Statuses(), {Completed}))
      ensures r.success || Closed(graph.Statuses()) ==> Reported(r, exec.loop.state)
      ensures !(r.success || Closed(graph.Statuses())) ==> exec.loop.state == old(exec.loop.state)
    {
      var all, closed := AllAre({Completed}), AllAre(SETTLED);
      ClosedIsSettled(graph.Statuses());
      StopIf(all || closed, if all then LC.Success else LC.UnrecoverableFailure);
      return Finished(all);
    }
  }

  ghost function Last(trace: seq<Statuses>): Statuses
    requires trace != []
  {
    trace[|trace| - 1]
  }

  /** Why a drive loop can stop early: an exception on a blocked task, or a pause that leaves its
      task RUNNING. */
  ghost predicate Interrupted(r: RunResult, st: Statuses) {
    match r
    case Finished(_) => false
    case NeedsContinuation => Somewhere(st, Running)
    case RunError => Somewhere(st, Blocked)
  }

  /** Why `continue_execution` stops early: a pause, or an exception on a task that was left RUNNING. */
  ghost predicate Halted(r: RunResult, state: LC.LoopState, before: Statuses) {
    !r.Finished? && Paused(r, state) && (r.RunError? ==> Somewhere(before, Running))
  }

  /** A request for continuation leaves the loop paused. */
  predicate Paused(r: RunResult, state: LC.LoopState) {
    r.NeedsContinuation? ==> state == LC.Paused
  }

  /** The state of the loop when `execute` returns. */
  predicate Reported(r: RunResult, state: LC.LoopState) {
    match r
    case Finished(success) => state == if success then LC.Completed else LC.Failed
    case NeedsContinuation => state == LC.Paused
    case RunError => state == LC.Failed
  }

  /** A task left RUNNING stays so. */
  ghost predicate KeepsRunning(s: Statuses, t: Statuses) {
    Somewhere(s, Running) ==> Somewhere(t, Running)
  }

  ghost predicate SomeStopped(st: Statuses) {
    exists x :: x in st && Stopped(st[x])
  }

  /** Nothing is left to run. */
  ghost predicate Closed(st: Statuses) {
    forall x :: x in st ==> st[x] != Pending && st[x] != Running
  }

  lemma ClosedIsSettled(st: Statuses)
    ensures AllIn(st, SETTLED) <==> Closed(st)
  {
  }

  ghost predicate AllIn(st: Statuses, allowed: set<TaskStatus>) {
    forall x :: x in st ==> st[x] in allowed
  }

  lemma RunningNotDone(g: Graph, order: seq<Id>, st: Statuses)
    requires Topological(g, order) && st.Keys == g.deps.Keys
    ensures Somewhere(st, Running) ==> !AllIn(st, {Completed}) && !DoneBefore(order, st, |order|)
    ensures WellFormed(g) ==> |order| == |g.ids|
    ensures DoneBefore(order, st, |order|) ==> Closed(st)
  {
    if WellFormed(g) { SameElements(order, g.ids); }
    if Somewhere(st, Running) {
      var x :| x in st && st[x] == Running;
      assert x in order;
    }
  }

  lemma WorkedStart(g: Graph, order: seq<Id>, st: Statuses)
    requires Topological(g, order) && st.Keys == g.deps.Keys && AllIn(st, {Pending})
    ensures Worked(order, st, 0)
  {
    forall j | 0 <= j < |order| ensures order[j] in st { assert order[j] in order; }
  }

  lemma WorkedEnd(g: Graph, order: seq<Id>, st: Statuses)
    requires Topological(g, order)
    ensures AllIn(st, {Pending}) ==> !SomeStopped(st)
    ensures WellFormed(g) ==> |order| == |g.ids|
    ensures Worked(order, st, |order|) ==> AllIn(st, {Completed, Failed})
  {
    if WellFormed(g) { SameElements(order, g.ids); }
  }

  /** After a run that was cut short before task number `abortAt`, or not at all, a clean verdict means
      that all tasks completed exactly if it was not cut short. */
  lemma WorkedVerdict(order: seq<Id>, st: Statuses, abortAt: nat)
    ensures Worked(order, st, if abortAt < |order| then abortAt else |order|) && !SomeStopped(st) ==>
      (AllIn(st, {Completed}) <==> abortAt >= |order|)
  {
    if Worked(order, st, if abortAt < |order| then abortAt else |order|) && !SomeStopped(st) {
      if abortAt < |order| {
        assert order[abortAt] in order && st[order[abortAt]] in {Pending, Blocked};
      } else {
        forall x | x in st ensures st[x] == Completed { assert x in order && !Stopped(st[x]); }
      }
    }
  }

  /** The first open task of the order is number `m`, and a pause has left it RUNNING. */
  ghost predicate StuckAt(order: seq<Id>, st: Statuses, m: nat) {
    m < |order| && DoneBefore(order, st, m) && order[m] in st && st[order[m]] == Running
  }

  ghost predicate StuckBefore(order: seq<Id>, st: Statuses, limit: nat) {
    exists m {:trigger StuckAt(order, st, m)} :: 0 <= m < limit && StuckAt(order, st, m)
  }

  /** In execution order the first open task comes before number `limit` and was left RUNNING. */
  ghost predicate StuckSession(g: Graph, st: Statuses, limit: nat) {
    exists order {:trigger LeastTopological(g, order)} :: LeastTopological(g, order) && StuckBefore(order, st, limit)
  }

  ghost function StuckIndex(order: seq<Id>, st: Statuses, limit: nat): (m: nat)
    requires StuckBefore(order, st, limit)
    ensures m < limit && StuckAt(order, st, m)
  {
    var m: nat :| m < limit && StuckAt(order, st, m);
    m
  }

  /** It does so at number `k` or later. */
  ghost predicate StuckFrom(order: seq<Id>, st: Statuses, limit: nat, k: nat) {
    StuckBefore(order, st, limit) && k <= StuckIndex(order, st, limit) < |order|
  }

  lemma StuckStep(order: seq<Id>, st: Statuses, limit: nat, k: nat)
    requires k < |order|
    ensures StuckFrom(order, st, limit, k) ==>
      if StuckFrom(order, st, limit, k + 1) then order[k] in st && st[order[k]].Terminal()
      else k < limit && StuckAt(order, st, k)
  {
  }

  /** From number `k` on nothing was run: at most what was pending has been blocked. */
  ghost predicate KeptFrom(order: seq<Id>, s: Statuses, t: Statuses, k: nat) {
    forall j {:trigger KeptAt(order, s, t, j)} :: k <= j < |order| ==> KeptAt(order, s, t, j)
  }

  ghost predicate KeptAt(order: seq<Id>, s: Statuses, t: Statuses, j: nat)
    requires j < |order|
  {
    var x := order[j];
    x in s ==> x in t && (t[x] == s[x] || (s[x] == Pending && t[x] == Blocked))
  }

  lemma KeptOn(order: seq<Id>, s: Statuses, t: Statuses, u: Statuses, k: nat)
    requires KeptFrom(order, s, t, k) && KeptFrom(order, t, u, k)
    ensures KeptFrom(order, s, u, k)
  {
    forall j | k <= j < |order|
      ensures KeptAt(order, s, u, j)
    {
      assert KeptAt(order, s, t, j) && KeptAt(order, t, u, j);
    }
  }

  lemma KeptOnAnyOrder(g: Graph, order: seq<Id>, s: Statuses, t: Statuses, k: nat)
    requires LeastTopological(g, order) && KeptFrom(order, s, t, k)
    ensures forall o {:trigger LeastTopological(g, o)} :: LeastTopological(g, o) ==> KeptFrom(o, s, t, k)
  {
    forall o | LeastTopological(g, o)
      ensures KeptFrom(o, s, t, k)
    {
      LeastTopologicalUnique(g, g, order, o);
    }
  }

  /** There is only one execution order. */
  lemma StuckOnOrder(g: Graph, order: seq<Id>, st: Statuses, limit: nat)
    requires LeastTopological(g, order)
    ensures StuckSession(g, st, limit) <==> StuckBefore(order, st, limit)
  {
    if StuckSession(g, st, limit) {
      var o :| LeastTopological(g, o) && StuckBefore(o, st, limit);
      LeastTopologicalUnique(g, g, order, o);
    }
  }

  lemma StuckNeedsOrder(g: Graph, sorted: SortOutcome, st: Statuses, limit: nat)
    requires SortSpec(g, sorted)
    ensures sorted.Order? ==> (StuckSession(g, st, limit) <==> StuckBefore(sorted.order, st, limit))
    ensures sorted.Order? <==> !Cyclic(g) && !LateRepeat(g)
  {
    if sorted.Order? { StuckOnOrder(g, sorted.order, st, limit); }
  }

  /** A turn of `continue_execution`: a task left RUNNING raises, and no other turn touches it. */
  lemma ContinueTurn(order: seq<Id>, s: Statuses, t: Statuses, k: nat, o: TaskOutcome)
    requires DoneBefore(order, s, k) && k < |order| && Turned(s, t, order[k], o)
    ensures KeepsRunning(s, t) && (o in {TaskDone, TaskFailed} ==> KeepsRunning(t, s))
    ensures o in {TaskDone, TaskFailed} ==> DoneBefore(order, t, k + 1)
    ensures o.TaskRaised? && InUse(s, order[k]) && !s[order[k]].Terminal() ==> Somewhere(s, Running)
    ensures o.TaskPaused? ==> StuckAt(order, t, k)
    ensures StuckAt(order, s, k) ==> o.TaskRaised? && s == t
    ensures Distinct(order) ==> KeptFrom(order, s, t, k + 1)
  {
    if Somewhere(s, Running) {
      var y :| y in s && s[y] == Running;
      assert t[y] == Running;
    }
    if o in {TaskDone, TaskFailed} && Somewhere(t, Running) {
      var y :| y in t && t[y] == Running;
      assert y in s && s[y] == Running;
    }
  }

  /** What an open task leads to in `continue_execution`. */
  ghost predicate TaskContinued(order: seq<Id>, k: nat, trace0: seq<Statuses>, trace: seq<Statuses>,
                                stop: Option<RunResult>, state: LC.LoopState) {
    && trace0 != [] && trace0 <= trace && KeepsRunning(Last(trace0), Last(trace))
    && (stop.None? ==> DoneBefore(order, Last(trace), k + 1) && state.Running())
    && (stop.None? ==> KeepsRunning(Last(trace), Last(trace0)))
    && (stop.Some? ==> Halted(stop.value, state, Last(trace0)))
    && (stop == Some(NeedsContinuation) ==> StuckAt(order, Last(trace), k))
    && (StuckAt(order, Last(trace0), k) ==> stop == Some(RunError) && Last(trace) == Last(trace0))
    && KeptFrom(order, Last(trace0), Last(trace), k + 1)
  }

  /** What one pass through its loop leads to. */
  ghost predicate Continued(order: seq<Id>, k: nat, abortAt: nat, trace0: seq<Statuses>, trace: seq<Statuses>,
                            stop: Option<RunResult>, state: LC.LoopState) {
    && trace0 != [] && trace0 <= trace && KeepsRunning(Last(trace0), Last(trace))
    && (stop.None? ==> KeepsRunning(Last(trace), Last(trace0)))
    && (stop.None? && state.Running() ==> DoneBefore(order, Last(trace), k + 1))
    && (stop.None? && !state.Running() ==> k >= abortAt && trace == trace0 && state == LC.Aborted)
    && (stop.Some? ==> Halted(stop.value, state, Last(trace0)))
    && (stop == Some(NeedsContinuation) ==> StuckAt(order, Last(trace), k))
    && (StuckFrom(order, Last(trace0), abortAt, k) ==>
      if stop.Some? then stop == Some(RunError) && Last(trace) == Last(trace0)
      else trace == trace0 && state.Running() && StuckFrom(order, Last(trace0), abortAt, k + 1))
    && KeptFrom(order, Last(trace0), Last(trace), abortAt)
  }

  lemma PassedOver(order: seq<Id>, k: nat, abortAt: nat, trace: seq<Statuses>, state: LC.LoopState)
    requires trace != [] && k < |order| && DoneBefore(order, Last(trace), k) && order[k] in Last(trace)
    requires if Last(trace)[order[k]].Terminal() then state.Running() else k >= abortAt && state == LC.Aborted
    ensures Continued(order, k, abortAt, trace, trace, None, state)
  {
    StuckStep(order, Last(trace), abortAt, k);
    forall j | abortAt <= j < |order| ensures KeptAt(order, Last(trace), Last(trace), j) {}
  }

  lemma RanOn(order: seq<Id>, k: nat, abortAt: nat, trace0: seq<Statuses>, trace: seq<Statuses>,
              stop: Option<RunResult>, state: LC.LoopState)
    requires TaskContinued(order, k, trace0, trace, stop, state) && k < |order| && k < abortAt
    requires order[k] in Last(trace0) && !Last(trace0)[order[k]].Terminal()
    ensures Continued(order, k, abortAt, trace0, trace, stop, state)
  {
    StuckStep(order, Last(trace0), abortAt, k);
    KeptLater(order, Last(trace0), Last(trace), k + 1, abortAt);
  }

  lemma KeptLater(order: seq<Id>, s: Statuses, t: Statuses, k: nat, m: nat)
    requires KeptFrom(order, s, t, k) && k <= m
    ensures KeptFrom(order, s, t, m)
  {
    forall j | m <= j < |order| ensures KeptAt(order, s, t, j) { assert k <= j; }
  }

  /** The loop has come to task number `k`. */
  ghost predicate GoneOn(order: seq<Id>, k: nat, abortAt: nat, trace0: seq<Statuses>, trace: seq<Statuses>) {
    && trace0 != [] && trace0 <= trace && DoneBefore(order, Last(trace), k)
    && KeepsRunning(Last(trace0), Last(trace)) && KeepsRunning(Last(trace), Last(trace0))
    && KeptFrom(order, Last(trace0), Last(trace), abortAt)
    && (StuckBefore(order, Last(trace0), abortAt) ==> trace == trace0 && StuckFrom(order, Last(trace0), abortAt, k))
  }

  /** What the whole loop leads to. */
  ghost predicate AllContinued(order: seq<Id>, abortAt: nat, trace0: seq<Statuses>, trace: seq<Statuses>,
                               stop: Option<RunResult>, state: LC.LoopState) {
    && trace0 != [] && trace0 <= trace && KeepsRunning(Last(trace0), Last(trace))
    && (stop.None? ==> DoneBefore(order, Last(trace), if abortAt < |order| then abortAt else |order|))
    && (stop.None? ==> state == LC.Aborted || DoneBefore(order, Last(trace), |order|))
    && (stop.Some? ==> Halted(stop.value, state, Last(trace0)))
    && (stop == Some(NeedsContinuation) ==> StuckBefore(order, Last(trace), |order|))
    && (StuckBefore(order, Last(trace0), abortAt) ==> stop == Some(RunError) && Last(trace) == Last(trace0))
    && KeptFrom(order, Last(trace0), Last(trace), abortAt)
  }

  lemma GoneStart(order: seq<Id>, abortAt: nat, trace: seq<Statuses>)
    requires trace != []
    ensures GoneOn(order, 0, abortAt, trace, trace)
  {
    forall j | abortAt <= j < |order| ensures KeptAt(order, Last(trace), Last(trace), j) {}
  }

  lemma GoneNext(order: seq<Id>, k: nat, abortAt: nat, trace0: seq<Statuses>, before: seq<Statuses>,
                 trace: seq<Statuses>, stop: Option<RunResult>, state: LC.LoopState)
    requires k < |order| && GoneOn(order, k, abortAt, trace0, before)
    requires Continued(order, k, abortAt, before, trace, stop, state)
    ensures if stop.Some? || !state.Running() then AllContinued(order, abortAt, trace0, trace, stop, state)
            else GoneOn(order, k + 1, abortAt, trace0, trace)
  {
    KeptOn(order, Last(trace0), Last(before), Last(trace), abortAt);
    assert stop == Some(NeedsContinuation) ==> StuckAt(order, Last(trace), k);
  }

  lemma GoneThrough(order: seq<Id>, abortAt: nat, trace0: seq<Statuses>, trace: seq<Statuses>, state: LC.LoopState)
    requires GoneOn(order, |order|, abortAt, trace0, trace)
    ensures AllContinued(order, abortAt, trace0, trace, None, state)
  {
  }

  /** How `continue_execution` ends, from the statuses `s` in the statuses `t`. */
  ghost predicate Resumed(g: Graph, abortAt: nat, s: Statuses, t: Statuses, r: RunResult, state: LC.LoopState) {
    // The verdict, and the state of the loop: open tasks are only left over by an abort.
    && (r == Finished(true) ==> AllIn(t, {Completed}))
    && (!r.Finished? || r.success || Closed(t) ==> Reported(r, state))
    && (r.Finished? && !Closed(t) ==> state == LC.Aborted)
    // From the abort on no task is run.
    && (forall o {:trigger LeastTopological(g, o)} :: LeastTopological(g, o) ==> KeptFrom(o, s, t, abortAt))
    // A task left RUNNING stays so: no success, and without an abort no end.
    && KeepsRunning(s, t) && (Somewhere(s, Running) ==> r != Finished(true))
    && (Somewhere(s, Running) && abortAt >= |g.ids| ==> !r.Finished?)
    // What raises.
    && (r == RunError ==> Somewhere(s, Running) || Cyclic(g) || LateRepeat(g))
    && (Cyclic(g) || LateRepeat(g) ==> r == RunError && t == s)
    && (StuckSession(g, s, abortAt) ==> r == RunError && t == s)
    // What a pause leaves.
    && (r.NeedsContinuation? ==> StuckSession(g, t, |g.ids|))
  }

  lemma ResumedUnsorted(g: Graph, sorted: SortOutcome, abortAt: nat, s: Statuses, state: LC.LoopState)
    requires SortSpec(g, sorted) && !sorted.Order? && Reported(RunError, state)
    ensures Resumed(g, abortAt, s, s, RunError, state)
  {
    forall o | LeastTopological(g, o)
      ensures KeptFrom(o, s, s, abortAt)
    {
      forall j | abortAt <= j < |o| ensures KeptAt(o, s, s, j) {}
    }
  }

  lemma ResumedSorted(g: Graph, order: seq<Id>, abortAt: nat, trace0: seq<Statuses>, trace: seq<Statuses>,
                      stop: Option<RunResult>, before: LC.LoopState, r: RunResult, after: LC.LoopState)
    requires SortSpec(g, Order(order)) && WellFormed(g) && AllContinued(order, abortAt, trace0, trace, stop, before)
    requires Last(trace).Keys == g.deps.Keys
    requires r == if stop.Some? then stop.value else Finished(AllIn(Last(trace), {Completed}))
    requires stop.Some? || r.success || Closed(Last(trace)) ==> Reported(r, after)
    requires stop.None? && !r.success && !Closed(Last(trace)) ==> after == before
    ensures Resumed(g, abortAt, Last(trace0), Last(trace), r, after)
  {
    var s, t := Last(trace0), Last(trace);
    RunningNotDone(g, order, t);
    StuckOnOrder(g, order, t, |order|);
    StuckNeedsOrder(g, Order(order), s, abortAt);
    KeptOnAnyOrder(g, order, s, t, abortAt);
  }

  /** The first `k` tasks have completed or failed, the others have not been touched. */
  ghost predicate Worked(order: seq<Id>, st: Statuses, k: nat) {
    && Distinct(order) && k <= |order| && (forall x :: x in st <==> x in order)
    && (forall j :: 0 <= j < k ==> st[order[j]] in {Completed, Failed})
    && (forall j :: k <= j < |order| ==> st[order[j]] in {Pending, Blocked})
  }

  lemma WorkedDone(order: seq<Id>, st: Statuses, k: nat)
    requires Worked(order, st, k)
    ensures DoneBefore(order, st, k)
  {
    assert forall j :: 0 <= j < k ==> order[j] in order;
  }

  /** What a turn does to the statuses; it raises exactly on tasks that are not pending. */
  ghost predicate Turned(s: Statuses, t: Statuses, x: Id, o: TaskOutcome) {
    && x in s && (o.TaskRaised? <==> s[x] != Pending)
    && if o.TaskFailed? then AfterFailure(s, t, x) else t == s[x := AfterTask(o, s[x])]
  }

  ghost predicate Somewhere(st: Statuses, s: TaskStatus) {
    exists x :: x in st && st[x] == s
  }

  /** A turn of `execute`. */
  lemma WorkedTurn(order: seq<Id>, s: Statuses, t: Statuses, k: nat, o: TaskOutcome)
    requires Worked(order, s, k) && k < |order| && Turned(s, t, order[k], o)
    ensures o in {TaskDone, TaskFailed} ==> Worked(order, t, k + 1)
    ensures o.TaskPaused? ==> Somewhere(t, Running) && StuckBefore(order, t, |order|)
    ensures o.TaskRaised? ==> Somewhere(t, Blocked)
  {
    assert order[k] in order;
    assert t[order[k]] == AfterTask(o, s[order[k]]);
    assert o.TaskPaused? ==> StuckAt(order, t, k);
    assert forall x :: x in order <==> x in t;
  }

  /** `t` is `s` after task `x` failed: some pending tasks got blocked, nothing else moved. */
  ghost predicate AfterFailure(s: Statuses, t: Statuses, x: Id) {
    && s.Keys == t.Keys && x in s && t[x] == Failed
    && forall y :: y in s && y != x ==> t[y] == s[y] || (s[y] == Pending && t[y] == Blocked)
  }

  function SubtaskIds(subtasks: seq<Subtask>): seq<Id> {
    seq(|subtasks|, i requires 0 <= i < |subtasks| => subtasks[i].id)
  }

  /** The graph holds one pending task for each of the subtasks, with the dependencies it lists. */
  ghost predicate Holds(graph: TaskGraph, subtasks: seq<Subtask>, byId: map<Id, Subtask>)
    reads graph, graph.repr`dependents, graph.repr`status
  {
    graph.Valid() && PlanIn(graph.View(), byId, subtasks) && AllIn(graph.Statuses(), {Pending})
  }

  /** `from_subtasks`: it raises exactly on a repeated identifier. */
  method FromSubtasks(subtasks: seq<Subtask>) returns (ok: bool, graph: TaskGraph, byId: map<Id, Subtask>)
    ensures fresh(graph) && fresh(graph.repr)
    ensures ok <==> Distinct(SubtaskIds(subtasks))
    ensures ok ==> Holds(graph, subtasks, byId)
  {
    graph := new TaskGraph();
    byId := map[];
    for k := 0 to |subtasks|
      invariant fresh(graph) && fresh(graph.repr) && Holds(graph, subtasks[..k], byId)
    {
      NextId(subtasks, k);
      var o := AddSubtask(graph, subtasks[..k], byId, subtasks[k]);
      if o.Raised? { return false, graph, byId; }
      byId := byId[subtasks[k].id := subtasks[k]];
    }
    assert subtasks[..|subtasks|] == subtasks;
    return true, graph, byId;
  }

  lemma NextId(subtasks: seq<Subtask>, k: nat)
    requires k < |subtasks|
    ensures subtasks[..k + 1] == subtasks[..k] + [subtasks[k]]
    ensures subtasks[k].id in SubtaskIds(subtasks[..k]) ==> !Distinct(SubtaskIds(subtasks))
  {
    var ids := SubtaskIds(subtasks);
    if subtasks[k].id in SubtaskIds(subtasks[..k]) {
      var i :| 0 <= i < k && SubtaskIds(subtasks[..k])[i] == subtasks[k].id;
      assert ids[i] == ids[k];
    }
  }

  method AddSubtask(graph: TaskGraph, ghost before: seq<Subtask>, ghost byId: map<Id, Subtask>, s: Subtask)
    returns (o: Outcome)
    requires Holds(graph, before, byId)
    modifies graph, graph.repr`dependents
    ensures o.Raised? <==> s.id in SubtaskIds(before)
    ensures o.Done? ==> Holds(graph, before + [s], byId[s.id := s])
    ensures fresh(graph.repr - old(graph.repr))
  {
    ghost var g := graph.View();
    o := graph.AddTask(s.id, s.dependencies);
    if o.Done? { PlanExtended(g, byId, before, s); }
  }

  lemma PlanExtended(g: Graph, byId: map<Id, Subtask>, plan: seq<Subtask>, s: Subtask)
    requires PlanIn(g, byId, plan) && s.id !in g.deps
    ensures PlanIn(Added(g, s.id, s.dependencies), byId[s.id := s], plan + [s])
  {
    var all := plan + [s];
    assert SubtaskIds(all) == SubtaskIds(plan) + [s.id];
    forall i | 0 <= i < |all|
      ensures all[i].id in byId[s.id := s] && byId[s.id := s][all[i].id] == all[i]
      ensures g.deps[s.id := s.dependencies][all[i].id] == all[i].dependencies
    {
      if i < |plan| { assert all[i] == plan[i] && plan[i].id in g.deps; }
    }
  }

  lemma PendingConsistent(g: Graph, st: Statuses)
    requires st.Keys == g.deps.Keys && AllIn(st, {Pending})
    ensures Consistent(g, st)
  {
    assert forall p, n :: EdgeAt(g, st, p, n);
    assert forall x :: InUse(st, x);
  }

  /** A session over the graph of the subtasks; none if an identifier is repeated. */
  method Open(exec: Executor, subtasks: seq<Subtask>) returns (session: Option<Session>)
    requires exec.loop.Valid()
    ensures session.Some? <==> Distinct(SubtaskIds(subtasks))
    ensures session.Some? ==> session.value.exec == exec && session.value.Unstarted(subtasks)
    ensures session.Some? ==> fresh(session.value.graph) && fresh(session.value.graph.repr)
  {
    var ok, graph, byId := FromSubtasks(subtasks);
    if !ok { return None; }
    var s := new Session(exec, graph, byId);
    s.NotStarted(subtasks);
    return Some(s);
  }

  /** The plan that `asked` calls of the planner lead to. */
  ghost function PlanAfter(exec: Executor, start: nat, asked: nat): Plan {
    if asked == 0 then FALLBACK_PLAN else PlanOut(exec.policy, exec.world.planner(start + asked - 1))
  }

  /** `execute` from the start of the loop on: the plan is that of the planner's last answer, and the
      session runs that very plan, respecting what its subtasks list; whatever completed or failed had
      a run of its own subtask that ended so. Success means that no tool plan was invalid, and that all
      subtasks completed exactly if no external abort cut the run short. */
  method Run(exec: Executor, abortAt: nat)
    returns (r: RunResult, session: Option<Session>, ghost plan: seq<Subtask>, ghost asked: nat,
             ghost trace: seq<Statuses>)
    requires exec.loop.Valid()
    modifies exec.loop
    ensures exec.loop.Valid() && ToolPlansValid(exec.policy, plan) && Reported(r, exec.loop.state)
    ensures plan != [] ==> Planned(plan) == PlanAfter(exec, old(|exec.loop.iterations|), asked)
    ensures session.Some? ==> session.value.exec == exec && session.value.Followed(plan, trace)
    ensures r == Finished(true) ==> session.Some? && plan != [] && !SomeStopped(Last(trace))
    ensures r == Finished(true) ==> (AllIn(Last(trace), {Completed}) <==> abortAt >= |plan|)
    ensures plan != [] && session.None? ==> r == RunError && !Distinct(SubtaskIds(plan))
  {
    var stop, subtasks;
    stop, subtasks, asked := PlanFirst(exec);
    plan, session, trace := subtasks, None, [];
    if stop.Some? { return stop.value, None, [], asked, []; }
    r, session, trace := RunPlan(exec, subtasks, abortAt);
  }

  /** The planning phase: a plan with subtasks, or the end of the run. */
  method PlanFirst(exec: Executor) returns (stop: Option<RunResult>, plan: seq<Subtask>, ghost asked: nat)
    requires exec.loop.Valid()
    modifies exec.loop
    ensures exec.loop.Valid()
    ensures if stop.Some?
            then stop.value in {NeedsContinuation, Finished(false)} && Reported(stop.value, exec.loop.state)
            else exec.loop.state.Running() && plan != []
    ensures stop.None? ==> ToolPlansValid(exec.policy, plan)
    ensures stop.None? ==> Planned(plan) == PlanAfter(exec, old(|exec.loop.iterations|), asked)
  {
    asked := 0;
    exec.loop.Start();
    ghost var start := |exec.loop.iterations|;
    var planned := exec.ExecutePlanning();
    if planned.None? { return Some(NeedsContinuation), [], 0; }
    if planned.value.PlanFailed? || planned.value.subtasks == [] {
      exec.loop.Terminate(LC.FatalError);
      return Some(Finished(false)), [], 0;
    }
    return None, planned.value.subtasks, |exec.loop.iterations| - start;
  }

  /** The plan as a graph, and its tasks. */
  method RunPlan(exec: Executor, plan: seq<Subtask>, abortAt: nat)
    returns (r: RunResult, session: Option<Session>, ghost trace: seq<Statuses>)
    requires exec.loop.Valid() && exec.loop.state.Running()
    modifies exec.loop
    ensures exec.loop.Valid() && Reported(r, exec.loop.state)
    ensures session.Some? ==> session.value.exec == exec && session.value.Followed(plan, trace)
    ensures session.Some? && r == Finished(true) ==>
      !SomeStopped(Last(trace)) && (AllIn(Last(trace), {Completed}) <==> abortAt >= |plan|)
    ensures session.None? ==> r == RunError && !Distinct(SubtaskIds(plan))
  {
    session := Open(exec, plan);
    if session.None? {
      exec.loop.Terminate(LC.FatalError);
      return RunError, None, [];
    }
    r, trace := session.value.ExecutePlan(plan, abortAt);
  }
}
