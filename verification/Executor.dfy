/**
  The executor's methods for one task and for planning, run against agents that may answer anything.
 */
module Executors {
  import opened Options
  import opened LoopControllers
  import opened Reviewers
  import opened ToolPlans
  import opened Protocols
  import TG = TaskGraphs

  /** What planning returns when it is not paused. */
  datatype Plan = Planned(subtasks: seq<Subtask>) | PlanFailed

  /** What follows a review that asks for changes: review the next list, fail, or pause. */
  datatype Next = Retry(changes: seq<Change>, seenCycle: bool, shiftAttempted: bool) | GiveUp | Pause

  /** One round of review: the task is over, or the next list is to be reviewed. */
  datatype Round = Over(outcome: TaskOutcome) | Again(changes: seq<Change>, seenCycle: bool, shiftAttempted: bool)

  /** The deterministic one-step plan. */
  const FALLBACK_PLAN: Plan := Planned([Subtask("1", [], {"implemented", "verified"}, None, None)])

  /** It has one subtask, with no dependency and no tool plan, and with criteria: so a malformed review of
      it lets it be applied. */
  lemma FallbackTask(t: Subtask)
    ensures FALLBACK_PLAN == Planned([t]) ==>
      && t.id == "1" && t.dependencies == [] && t.toolPlan == None && t.fallbackChanges == None
      && |t.criteria| == 2 && GateOk(FallbackReview(t.criteria))
    ensures FALLBACK_PLAN.Planned? && |FALLBACK_PLAN.subtasks| == 1
  {
    FallbackPassesGate(t.criteria);
    if FALLBACK_PLAN == Planned([t]) { assert t == FALLBACK_PLAN.subtasks[0]; }
  }

  ghost predicate ToolPlansValid(p: Policy, subtasks: seq<Subtask>) {
    forall s :: s in subtasks && s.toolPlan.Some? ==> Validate(p, s.toolPlan.value) == []
  }

  /** Disables the tool plans that do not validate. */
  function DisableInvalid(p: Policy, subtasks: seq<Subtask>): (r: seq<Subtask>)
    ensures |r| == |subtasks|
    ensures forall i :: 0 <= i < |r| ==>
      r[i] == subtasks[i] ||
      (subtasks[i].toolPlan.Some? && Validate(p, subtasks[i].toolPlan.value) != [] &&
       r[i] == subtasks[i].(toolPlan := None))
    ensures ToolPlansValid(p, r)
  {
    if subtasks == [] then []
    else
      var s := subtasks[0];
      [if s.toolPlan.Some? && Validate(p, s.toolPlan.value) != [] then s.(toolPlan := None) else s]
      + DisableInvalid(p, subtasks[1..])
  }

  function CallsOf(a: PlannerAnswer): seq<(string, string)> {
    if a.PlanOk? then a.calls else []
  }

  /** An answer that only calls tools. */
  predicate ToolOnly(a: PlannerAnswer) {
    CallsOf(a) != []
  }

  /** The planner was asked again after this answer: tools only, and not the same ones twice. */
  ghost predicate AskedAgain(w: World, start: nat, j: nat) {
    ToolOnly(w.planner(j)) && (j > start ==> CallsOf(w.planner(j)) != CallsOf(w.planner(j - 1)))
  }

  /** What a final answer of the planner turns into. */
  function PlanOut(p: Policy, a: PlannerAnswer): Plan {
    match a
    case PlanError(malformed) => if malformed then FALLBACK_PLAN else PlanFailed
    case PlanOk(subtasks, calls) => if calls == [] then Planned(DisableInvalid(p, subtasks)) else FALLBACK_PLAN
  }

  /** The status a task outcome leaves on its node. */
  function AfterTask(o: TaskOutcome, before: TG.TaskStatus): TG.TaskStatus {
    match o
    case TaskRaised => before
    case TaskPaused => TG.Running
    case TaskDone => TG.Completed
    case TaskFailed => TG.Failed
  }

  class Executor {
    const loop: LoopController
    const policy: Policy
    const world: World

    constructor (loop: LoopController, policy: Policy, world: World)
      ensures this.loop == loop && this.policy == policy && this.world == world
    {
      this.loop, this.policy, this.world := loop, policy, world;
    }

    /** One agent call: begin an iteration, let the agent answer, end the iteration. */
    method Call(agent: AgentKind) returns (ok: bool)
      requires loop.Valid()
      modifies loop
      ensures loop.maxIterations == old(loop.maxIterations) && loop.base == old(loop.base)
      ensures loop.Valid() && loop.replaced == old(loop.replaced)
      ensures ok <==> old(loop.iterationCount) < loop.maxIterations
      ensures |loop.iterations| == old(|loop.iterations|) + if ok then 1 else 0
      ensures loop.state == if ok then StateFor(agent) else Paused
      ensures loop.iterationCount == old(loop.iterationCount) + if ok then 1 else 0
      ensures loop.fixIterationCount == old(loop.fixIterationCount) + if ok && agent == Fixer then 1 else 0
      ensures loop.planningCycleCount == old(loop.planningCycleCount) + if ok && agent == Planner then 1 else 0
      ensures ok ==> loop.iterations[..|loop.iterations| - 1] == old(loop.iterations)
      ensures ok ==> var last := loop.iterations[|loop.iterations| - 1];
        && last.agent == agent && last.ended && last.tokensUsed == world.tokens(old(|loop.iterations|))
        && last.success == match agent
             case Planner => world.planner(old(|loop.iterations|)).PlanOk?
             case Coder => world.coder(old(|loop.iterations|)).CoderOk?
             case Reviewer => world.reviewer(old(|loop.iterations|)).ReviewOk?
             case Fixer => world.fixer(old(|loop.iterations|)).FixOk?
    {
      var tokens := world.tokens(|loop.iterations|);
      var success := Succeeds(agent, |loop.iterations|);
      var r := loop.BeginIteration(agent);
      if r.None? { return false; }
      loop.EndIteration(r.value, success, tokens);
      return true;
    }

    /** Whether answer number `n` of the agent is not an error. */
    function Succeeds(agent: AgentKind, n: nat): bool {
      if agent == Planner then world.planner(n).PlanOk?
      else if agent == Coder then world.coder(n).CoderOk?
      else if agent == Reviewer then world.reviewer(n).ReviewOk?
      else world.fixer(n).FixOk?
    }

    ghost predicate CanCall()
      reads loop
    {
      loop.iterationCount < loop.maxIterations
    }

    /** The fixer's budget lasts for another call. */
    ghost predicate FixLeft()
      reads loop
    {
      loop.fixIterationCount < loop.maxFixIterations
    }

    /** The run wants another call, the budget does not allow it, and the loop is paused. */
    ghost predicate Stuck(s: Script, ev: seq<Event>)
      reads loop
    {
      loop.state == Paused && !CanCall() && WantsCall(s, ev, FixLeft())
    }

    /** A disciplined run, and the loop's counters are those of its start plus what the events tell. */
    ghost predicate Tracks(s: Script, ev: seq<Event>, count0: int, fix0: int)
      reads loop
    {
      && loop.Valid() && s.world == world && s.policy == policy && Disciplined(s, ev) && Shifts(ev) <= 1
      && loop.iterationCount == count0 + Calls(ev) && loop.fixIterationCount == fix0 + Fixes(ev)
      && |loop.iterations| == Now(s, ev)
      && (Calls(ev) == 0 || loop.iterationCount <= loop.maxIterations)
      && (Fixes(ev) == 0 || loop.fixIterationCount <= loop.maxFixIterations)
    }

    /** One call of the coder. */
    method CallCoder(ghost s: Script, subtask: Subtask, ghost ev0: seq<Event>, ghost count0: int, ghost fix0: int)
      returns (o: Option<CoderOutput>, ghost ev: seq<Event>)
      requires Tracks(s, ev0, count0, fix0) && s.subtask == subtask && CoderReady(s, ev0)
      modifies loop
      ensures loop.maxIterations == old(loop.maxIterations)
      ensures Tracks(s, ev, count0, fix0) && Shifts(ev) == Shifts(ev0)
      ensures o.None? ==> loop.state == Paused && ev == ev0 && !CanCall()
      ensures o.Some? ==> loop.state.Running() && loop.iterationCount == old(loop.iterationCount) + 1
      ensures o.Some? ==> ev == ev0 + [Coded(o.value)]
    {
      ev := ev0;
      var out := CoderOut(subtask, world.coder(|loop.iterations|));
      var ok := Call(Coder);
      if !ok { return None, ev; }
      EventAppend(ev, Coded(out));
      Extend(s, ev, Coded(out));
      return Some(out), ev + [Coded(out)];
    }

    /** `_execute_coder`: the tool plan, then the coder until it stops asking for tools. */
    method ExecuteCoder(ghost s: Script, subtask: Subtask, ghost ev0: seq<Event>, ghost count0: int, ghost fix0: int)
      returns (o: Option<CoderOutput>, ghost ev: seq<Event>)
      requires Tracks(s, ev0, count0, fix0) && loop.state.Running() && s.subtask == subtask
      requires ev0 == [] || ev0[|ev0| - 1].Shifted?
      modifies loop
      ensures loop.maxIterations == old(loop.maxIterations)
      ensures Tracks(s, ev, count0, fix0) && Shifts(ev) == Shifts(ev0)
      ensures if o.None? then Stuck(s, ev) else loop.state.Running()
      ensures loop.iterationCount >= old(loop.iterationCount)
      ensures o.Some? ==> o.value.CoderDone? || o.value.CoderFailed?
      ensures o.Some? ==>
        (ev == ev0 && o.value.CoderFailed? && ToolsFail(s, ev)) || (ev != [] && ev[|ev| - 1] == Coded(o.value))
    {
      ev := ev0;
      if subtask.toolPlan.Some? {
        var ok, _, _ := ExecutePlan(policy, world.tools(subtask.id, |loop.iterations|), subtask.toolPlan.value);
        if !ok { return Some(CoderFailed), ev; }
      }
      o, ev := CallCoderUntilDone(s, subtask, ev, count0, fix0);
    }

    /** The coder may be called: it is its turn, and its tool plan has not failed. */
    ghost predicate CoderReady(s: Script, ev: seq<Event>) {
      (ev == [] || ev[|ev| - 1] in {Shifted, Coded(CoderTools)}) &&
      ((ev != [] && ev[|ev| - 1].Coded?) || !ToolsFail(s, ev))
    }

    /** Calls the coder until it stops asking for tools. */
    method CallCoderUntilDone(ghost s: Script, subtask: Subtask, ghost ev0: seq<Event>,
                              ghost count0: int, ghost fix0: int)
      returns (o: Option<CoderOutput>, ghost ev: seq<Event>)
      requires Tracks(s, ev0, count0, fix0) && loop.state.Running() && s.subtask == subtask && CoderReady(s, ev0)
      modifies loop
      ensures loop.maxIterations == old(loop.maxIterations) && loop.iterationCount >= old(loop.iterationCount)
      ensures Tracks(s, ev, count0, fix0) && Shifts(ev) == Shifts(ev0)
      ensures if o.None? then Stuck(s, ev) else loop.state.Running()
      ensures o.Some? ==> (o.value.CoderDone? || o.value.CoderFailed?) && ev != [] && ev[|ev| - 1] == Coded(o.value)
    {
      ev := ev0;
      while loop.state.Running()
        invariant loop.maxIterations == old(loop.maxIterations) && loop.state.Running()
        invariant loop.iterationCount >= old(loop.iterationCount) && CoderReady(s, ev)
        invariant Tracks(s, ev, count0, fix0) && Shifts(ev) == Shifts(ev0)
        decreases loop.maxIterations - loop.iterationCount
      {
        var out;
        out, ev := CallCoder(s, subtask, ev, count0, fix0);
        if out.None? { return None, ev; }
        if !out.value.CoderTools? { return out, ev; }
      }
      assert false;
      return None, ev;
    }

    /** `_execute_reviewer`. */
    method ExecuteReviewer(ghost s: Script, subtask: Subtask, changes: seq<Change>,
                           ghost ev0: seq<Event>, ghost count0: int, ghost fix0: int)
      returns (o: Option<Option<Review>>, ghost ev: seq<Event>)
      requires Tracks(s, ev0, count0, fix0) && s.subtask == subtask && Submits(s, ev0, changes)
      modifies loop
      ensures loop.maxIterations == old(loop.maxIterations)
      ensures Tracks(s, ev, count0, fix0) && Shifts(ev) == Shifts(ev0)
      ensures o.None? ==> loop.state == Paused && ev == ev0 && !CanCall()
      ensures o.Some? ==> loop.state.Running() && loop.iterationCount == old(loop.iterationCount) + 1
      ensures o.Some? ==> ev == ev0 + [Reviewed(changes, o.value)]
    {
      ev := ev0;
      var answer := world.reviewer(|loop.iterations|);
      var ok := Call(Reviewer);
      if !ok { return None, ev; }
      var out: Option<Review>;
      match answer {
        case ReviewOk(raw) =>
          var r := ParseResponse(raw, ChangedPaths(changes), world.safe);
          out := Some(r);
        case ReviewError(malformed) =>
          out := if malformed then Some(FallbackReview(subtask.criteria)) else None;
      }
      EventAppend(ev, Reviewed(changes, out));
      Extend(s, ev, Reviewed(changes, out));
      return Some(out), ev + [Reviewed(changes, out)];
    }

    /** The run has just produced these changes and hands them to the review. */
    ghost predicate Submits(s: Script, ev: seq<Event>, changes: seq<Change>) {
      ev != [] &&
      (ev[|ev| - 1] == Fixed(Some(changes)) || (ev[|ev| - 1] == Coded(CoderDone(changes)) && Accepted(s, ev, changes)))
    }

    lemma SubmitsWantsCall(s: Script, ev: seq<Event>, changes: seq<Change>)
      requires Submits(s, ev, changes)
      ensures forall canFix :: WantsCall(s, ev, canFix)
    {
    }

    lemma LastTwo(ev: seq<Event>, e: Event)
      requires ev != []
      ensures var all := ev + [e]; |all| >= 2 && all[|all| - 1] == e && all[|all| - 2] == ev[|ev| - 1]
    {
    }

    /** The run has just reviewed these changes, and the review asks for others. */
    ghost predicate Reconsiders(ev: seq<Event>, changes: seq<Change>) {
      ev != [] && ev[|ev| - 1].Reviewed? && ev[|ev| - 1].changes == changes && Continues(ev[|ev| - 1].review)
    }

    /** `_execute_fixer`. */
    method ExecuteFixer(ghost s: Script, changes: seq<Change>, ghost ev0: seq<Event>,
                        ghost count0: int, ghost fix0: int)
      returns (o: Option<Option<seq<Change>>>, ghost ev: seq<Event>)
      requires Tracks(s, ev0, count0, fix0) && FixLeft() && Reconsiders(ev0, changes) && !Stagnant(s, ev0)
      modifies loop
      ensures loop.maxIterations == old(loop.maxIterations)
      ensures Tracks(s, ev, count0, fix0) && Shifts(ev) == Shifts(ev0)
      ensures o.None? ==> loop.state == Paused && ev == ev0 && !CanCall()
      ensures o.Some? ==> loop.state.Running() && loop.iterationCount == old(loop.iterationCount) + 1
      ensures o.Some? ==> ev == ev0 + [Fixed(o.value)]
    {
      ev := ev0;
      var answer := world.fixer(|loop.iterations|);
      var ok := Call(Fixer);
      if !ok { return None, ev; }
      var out := FixOut(answer, changes);
      EventAppend(ev, Fixed(out));
      Extend(s, ev, Fixed(out));
      return Some(out), ev + [Fixed(out)];
    }

    /** The outcome, the status of the node, the loop's state and the events belong together. */
    ghost predicate Settled(s: Script, ev: seq<Event>, o: TaskOutcome, before: TG.TaskStatus, after: TG.TaskStatus)
      reads loop
    {
      && Ends(s, ev, o, FixLeft(), CanCall()) && after == AfterTask(o, before)
      && if o.TaskPaused? then loop.state == Paused else loop.state.Running()
    }

    method Fail(node: TG.TaskNode, ghost s: Script, ghost ev: seq<Event>) returns (o: TaskOutcome)
      requires node.status == TG.Running && loop.state.Running() && GivesUp(s, ev, FixLeft())
      modifies node`status
      ensures o == TaskFailed && Settled(s, ev, o, TG.Running, node.status)
    {
      var _ := node.TransitionTo(TG.Failed);
      return TaskFailed;
    }

    /** The terminal branch: gate, application, final status. */
    method Finish(node: TG.TaskNode, review: Review, changes: seq<Change>,
                  ghost s: Script, ghost ev0: seq<Event>, ghost count0: int, ghost fix0: int)
      returns (o: TaskOutcome, ghost ev: seq<Event>)
      requires node.status == TG.Running && Tracks(s, ev0, count0, fix0) && loop.state.Running() && ev0 != []
      requires ev0[|ev0| - 1] == Reviewed(changes, Some(review)) && review.taskComplete
      modifies node`status
      ensures Tracks(s, ev, count0, fix0) && !o.TaskRaised? && Settled(s, ev, o, TG.Running, node.status)
    {
      ev := ev0;
      if !GateOk(review) {
        o := Fail(node, s, ev);
        return;
      }
      var applied := world.applyOk(|loop.iterations|);
      EventAppend(ev, Applied(changes, applied));
      Extend(s, ev, Applied(changes, applied));
      ev := ev + [Applied(changes, applied)];
      var _ := node.TransitionTo(if applied then TG.Completed else TG.Failed);
      o := if applied then TaskDone else TaskFailed;
    }

    /** The strategy shift: one more coder run, accepted if it proposes different changes. */
    method ShiftStrategy(ghost s: Script, subtask: Subtask, ghost ev0: seq<Event>, ghost count0: int, ghost fix0: int)
      returns (o: Option<Option<seq<Change>>>, ghost ev: seq<Event>)
      requires Tracks(s, ev0, count0, fix0) && loop.state.Running() && s.subtask == subtask
      requires ev0 != [] && ev0[|ev0| - 1].Reviewed? && Continues(ev0[|ev0| - 1].review)
      requires Stagnant(s, ev0) && Shifts(ev0) == 0
      modifies loop
      ensures loop.maxIterations == old(loop.maxIterations) && loop.iterationCount >= old(loop.iterationCount)
      ensures Tracks(s, ev, count0, fix0) && Shifts(ev) == 1
      ensures if o.None? then Stuck(s, ev) else loop.state.Running()
      ensures o.Some? && o.value.Some? ==> Submits(s, ev, o.value.value) && ev[|ev| - 1].Coded?
      ensures o.Some? && o.value.None? ==> GivesUp(s, ev, FixLeft())
    {
      EventAppend(ev0, Shifted);
      Extend(s, ev0, Shifted);
      var coded;
      coded, ev := ExecuteCoder(s, subtask, ev0 + [Shifted], count0, fix0);
      if coded.None? { return None, ev; }
      if coded.value.CoderDone? && coded.value.changes != [] && !world.sameChanges(|loop.iterations|) {
        return Some(Some(coded.value.changes)), ev;
      }
      return Some(None), ev;
    }

    /** After a review that asks for changes: stagnation check with at most one strategy shift, then
        the fixer as long as its budget lasts. */
    method NextChanges(ghost s: Script, subtask: Subtask, changes: seq<Change>, seenCycle: bool, shiftAttempted: bool,
                       ghost ev0: seq<Event>, ghost count0: int, ghost fix0: int)
      returns (next: Next, ghost ev: seq<Event>)
      requires Tracks(s, ev0, count0, fix0) && loop.state.Running() && s.subtask == subtask
      requires Reconsiders(ev0, changes) && |ev0| >= 2 && (seenCycle <==> ev0[|ev0| - 2].Fixed?)
      requires Shifts(ev0) == if shiftAttempted then 1 else 0
      modifies loop
      ensures loop.maxIterations == old(loop.maxIterations) && loop.iterationCount >= old(loop.iterationCount)
      ensures Tracks(s, ev, count0, fix0)
      ensures if next.Pause? then Stuck(s, ev) else loop.state.Running()
      ensures next.GiveUp? ==> GivesUp(s, ev, FixLeft())
      ensures next.Retry? ==> Submits(s, ev, next.changes) && (next.seenCycle <==> ev[|ev| - 1].Fixed?)
      ensures next.Retry? ==> Shifts(ev) == if next.shiftAttempted then 1 else 0
    {
      ev := ev0;
      if seenCycle && world.noProgress(|loop.iterations|) {
        if !shiftAttempted {
          var shifted;
          shifted, ev := ShiftStrategy(s, subtask, ev, count0, fix0);
          if shifted.None? { return Pause, ev; }
          if shifted.value.Some? { return Retry(shifted.value.value, false, true), ev; }
        }
        return GiveUp, ev;
      }
      if !loop.CanFixAgain() { return GiveUp, ev; }
      var fixed;
      fixed, ev := ExecuteFixer(s, changes, ev, count0, fix0);
      if fixed.None? { return Pause, ev; }
      if fixed.value.None? { return GiveUp, ev; }
      return Retry(fixed.value.value, true, shiftAttempted), ev;
    }

    /** A round can start: these changes have just been produced, and the flags tell how. */
    ghost predicate RoundReady(s: Script, ev: seq<Event>, count0: int, fix0: int,
                               changes: seq<Change>, seenCycle: bool, shiftAttempted: bool)
      reads loop
    {
      && Tracks(s, ev, count0, fix0) && loop.state.Running() && Submits(s, ev, changes)
      && (seenCycle <==> ev[|ev| - 1].Fixed?) && Shifts(ev) == if shiftAttempted then 1 else 0
    }

    /** What the round leads to: a settled end, or the next round. */
    ghost predicate RoundDone(s: Script, ev: seq<Event>, count0: int, fix0: int, round: Round, status: TG.TaskStatus)
      reads loop
    {
      match round
      case Over(o) => Tracks(s, ev, count0, fix0) && !o.TaskRaised? && Settled(s, ev, o, TG.Running, status)
      case Again(changes, seenCycle, shiftAttempted) =>
        RoundReady(s, ev, count0, fix0, changes, seenCycle, shiftAttempted) && status == TG.Running
    }

    /** What follows from the answer of the reviewer. */
    method Decide(node: TG.TaskNode, ghost s: Script, subtask: Subtask, changes: seq<Change>, out: Option<Review>,
                  seenCycle: bool, shiftAttempted: bool, ghost ev0: seq<Event>, ghost count0: int, ghost fix0: int)
      returns (round: Round, ghost ev: seq<Event>)
      requires node.status == TG.Running && s.subtask == subtask && loop.state.Running()
      requires Tracks(s, ev0, count0, fix0) && |ev0| >= 2 && ev0[|ev0| - 1] == Reviewed(changes, out)
      requires (seenCycle <==> ev0[|ev0| - 2].Fixed?) && Shifts(ev0) == if shiftAttempted then 1 else 0
      modifies loop, node`status
      ensures loop.maxIterations == old(loop.maxIterations) && loop.iterationCount >= old(loop.iterationCount)
      ensures RoundDone(s, ev, count0, fix0, round, node.status)
    {
      ev := ev0;
      var o;
      if out.None? {
        o := Fail(node, s, ev);
        return Over(o), ev;
      }
      if out.value.taskComplete {
        o, ev := Finish(node, out.value, changes, s, ev, count0, fix0);
        return Over(o), ev;
      }
      if out.value.verdict == Reject {
        o := Fail(node, s, ev);
        return Over(o), ev;
      }
      var next;
      next, ev := NextChanges(s, subtask, changes, seenCycle, shiftAttempted, ev, count0, fix0);
      if next.Pause? { return Over(TaskPaused), ev; }
      if next.GiveUp? {
        o := Fail(node, s, ev);
        return Over(o), ev;
      }
      return Again(next.changes, next.seenCycle, next.shiftAttempted), ev;
    }

    /** One round of the review-fix loop; it spends at least one call unless it is the last. */
    method ReviewRound(node: TG.TaskNode, ghost s: Script, subtask: Subtask, changes: seq<Change>,
                       seenCycle: bool, shiftAttempted: bool, ghost ev0: seq<Event>, ghost count0: int, ghost fix0: int)
      returns (round: Round, ghost ev: seq<Event>)
      requires node.status == TG.Running && s.subtask == subtask
      requires RoundReady(s, ev0, count0, fix0, changes, seenCycle, shiftAttempted)
      modifies loop, node`status
      ensures loop.maxIterations == old(loop.maxIterations)
      ensures round.Again? ==> loop.iterationCount > old(loop.iterationCount)
      ensures RoundDone(s, ev, count0, fix0, round, node.status)
    {
      var reviewed;
      reviewed, ev := ExecuteReviewer(s, subtask, changes, ev0, count0, fix0);
      if reviewed.None? {
        SubmitsWantsCall(s, ev, changes);
        return Over(TaskPaused), ev;
      }
      LastTwo(ev0, Reviewed(changes, reviewed.value));
      round, ev := Decide(node, s, subtask, changes, reviewed.value, seenCycle, shiftAttempted, ev, count0, fix0);
    }

    /** The review-fix loop. */
    method ReviewAndFix(node: TG.TaskNode, ghost s: Script, subtask: Subtask, changes: seq<Change>,
                        ghost ev0: seq<Event>, ghost count0: int, ghost fix0: int)
      returns (o: TaskOutcome, ghost ev: seq<Event>)
      requires loop.state.Running() && node.status == TG.Running && s.subtask == subtask
      requires Tracks(s, ev0, count0, fix0) && Shifts(ev0) == 0
      requires Submits(s, ev0, changes) && !ev0[|ev0| - 1].Fixed?
      modifies loop, node`status
      ensures loop.maxIterations == old(loop.maxIterations)
      ensures Tracks(s, ev, count0, fix0) && !o.TaskRaised? && Settled(s, ev, o, TG.Running, node.status)
    {
      ev := ev0;
      var current := changes;
      var seenCycle, shiftAttempted := false, false;
      while loop.state.Running()
        invariant loop.maxIterations == old(loop.maxIterations) && node.status == TG.Running
        invariant RoundReady(s, ev, count0, fix0, current, seenCycle, shiftAttempted)
        decreases loop.maxIterations - loop.iterationCount
      {
        var round;
        round, ev := ReviewRound(node, s, subtask, current, seenCycle, shiftAttempted, ev, count0, fix0);
        if round.Over? { return round.outcome, ev; }
        current, seenCycle, shiftAttempted := round.changes, round.seenCycle, round.shiftAttempted;
      }
      // The "Execution interrupted" tail: the loop is only ever left through its rounds.
      assert false;
      o := TaskFailed;
    }

    /** `_execute_task`: code, then review and fix until the reviewer lets the task finish, gives
        up, or a budget runs out. What happens is a disciplined run of the script made of the world's
        answers from now on. */
    method ExecuteTask(node: TG.TaskNode, subtask: Subtask) returns (o: TaskOutcome, ghost ev: seq<Event>)
      requires loop.Valid() && loop.state.Running()
      modifies loop, node`status
      ensures loop.maxIterations == old(loop.maxIterations)
      ensures o.TaskRaised? <==> !old(node.status).Allows(TG.Running)
      ensures var s := Script(world, policy, subtask, old(|loop.iterations|));
        && Tracks(s, ev, old(loop.iterationCount), old(loop.fixIterationCount))
        && Settled(s, ev, o, old(node.status), node.status)
    {
      ghost var count0, fix0 := loop.iterationCount, loop.fixIterationCount;
      ghost var s := Script(world, policy, subtask, |loop.iterations|);
      ev := [];
      var started := node.TransitionTo(TG.Running);
      if started.Raised? { return TaskRaised, ev; }
      var coded;
      coded, ev := ExecuteCoder(s, subtask, ev, count0, fix0);
      if coded.None? { return TaskPaused, ev; }
      if !coded.value.CoderDone? {
        o := Fail(node, s, ev);
        return;
      }
      if coded.value.changes == [] {
        var _ := node.TransitionTo(TG.Completed);
        return TaskDone, ev;
      }
      o, ev := ReviewAndFix(node, s, subtask, coded.value.changes, ev, count0, fix0);
    }

    /** `_execute_planning`: at most the remaining planning cycles are spent on the planner. It is asked
        again only while it calls new tools; its last answer decides, and every tool plan handed on has
        been validated. */
    method ExecutePlanning() returns (o: Option<Plan>)
      requires loop.Valid() && loop.state.Running()
      modifies loop
      ensures loop.Valid() && loop.maxIterations == old(loop.maxIterations)
      ensures |loop.iterations| - old(|loop.iterations|) == loop.planningCycleCount - old(loop.planningCycleCount) >= 0
      ensures loop.iterationCount - old(loop.iterationCount) == loop.planningCycleCount - old(loop.planningCycleCount)
      ensures loop.planningCycleCount == old(loop.planningCycleCount) ||
        loop.planningCycleCount <= loop.maxPlanningCycles
      ensures loop.iterationCount == old(loop.iterationCount) || loop.iterationCount <= loop.maxIterations
      ensures if o.None? then loop.state == Paused && !CanCall() else loop.state.Running()
      ensures o.Some? && o.value.Planned? ==> ToolPlansValid(policy, o.value.subtasks)
      ensures forall j {:trigger AskedAgain(world, old(|loop.iterations|), j)} ::
        old(|loop.iterations|) <= j < |loop.iterations| - (if o.None? then 0 else 1) ==>
          AskedAgain(world, old(|loop.iterations|), j)
      ensures o.Some? ==> PlanDecided(old(|loop.iterations|), o.value)
    {
      var maxPlanningCycles := if loop.maxPlanningCycles < 1 then 1 else loop.maxPlanningCycles;
      var toolOnlyCycles, streak := 0, 0;
      var lastCalls: Option<seq<(string, string)>> := None;
      ghost var start := |loop.iterations|;
      while loop.state.Running()
        invariant loop.Valid() && loop.maxIterations == old(loop.maxIterations) && loop.state.Running()
        invariant toolOnlyCycles == |loop.iterations| - start ==
          loop.planningCycleCount - old(loop.planningCycleCount) >= 0
        invariant loop.iterationCount - old(loop.iterationCount) ==
          loop.planningCycleCount - old(loop.planningCycleCount)
        invariant loop.planningCycleCount == old(loop.planningCycleCount) ||
          loop.planningCycleCount <= loop.maxPlanningCycles
        invariant loop.iterationCount == old(loop.iterationCount) || loop.iterationCount <= loop.maxIterations
        invariant forall j {:trigger AskedAgain(world, start, j)} ::
          start <= j < |loop.iterations| ==> AskedAgain(world, start, j)
        invariant lastCalls == if toolOnlyCycles == 0 then None else Some(CallsOf(world.planner(|loop.iterations| - 1)))
        invariant toolOnlyCycles > 0 ==> AskedAgain(world, start, |loop.iterations| - 1)
        decreases loop.maxPlanningCycles - loop.planningCycleCount
      {
        if !loop.CanReplan() { return Some(FALLBACK_PLAN); }
        var answer := world.planner(|loop.iterations|);
        var ok := Call(Planner);
        if !ok { return None; }
        match answer {
          case PlanError(malformed) =>
            return Some(if malformed then FALLBACK_PLAN else PlanFailed);
          case PlanOk(subtasks, calls) =>
            if calls == [] { return Some(Planned(DisableInvalid(policy, subtasks))); }
            toolOnlyCycles := toolOnlyCycles + 1;
            streak := if lastCalls == Some(calls) then streak + 1 else 0;
            lastCalls := Some(calls);
            if toolOnlyCycles >= maxPlanningCycles || streak >= 1 { return Some(FALLBACK_PLAN); }
        }
      }
      assert false;
      return None;
    }

    /** The plan is that of the last answer since `start`; the planner is only cut short when it repeats
        itself or its cycles are used up. */
    ghost predicate PlanDecided(start: nat, plan: Plan)
      reads loop
    {
      var n := |loop.iterations|;
      && n >= start
      && plan == (if n == start then FALLBACK_PLAN else PlanOut(policy, world.planner(n - 1)))
      && (n == start ==> loop.planningCycleCount >= loop.maxPlanningCycles)
      && (n > start && AskedAgain(world, start, n - 1) ==>
          n - start >= loop.maxPlanningCycles || loop.planningCycleCount >= loop.maxPlanningCycles)
    }
  }
}
