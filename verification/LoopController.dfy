/**
  The loop controller: iteration budgets, per-agent counters, records of iterations and their
  token totals.
 */
module LoopControllers {
  import opened Options

  datatype AgentKind = Planner | Coder | Reviewer | Fixer

  datatype LoopState =
    Idle | Planning | Executing | Reviewing | Fixing | Completed | Failed | TimedOut | Aborted | Paused {

    predicate Running() {
      this !in {Idle, Completed, Failed, TimedOut, Aborted, Paused}
    }
  }

  datatype TerminationReason =
    Success | MaxIterations | MaxFixIterations | Timeout | FatalError | UserAbort |
    AllTasksComplete | UnrecoverableFailure | PausedForUser

  /** The state an agent call puts the loop in. */
  function StateFor(agent: AgentKind): (s: LoopState)
    ensures s.Running()
  {
    match agent
    case Planner => Planning
    case Coder => Executing
    case Reviewer => Reviewing
    case Fixer => Fixing
  }

  /** The state a termination leads to. */
  function FinalState(reason: TerminationReason): (s: LoopState)
    ensures !s.Running()
  {
    match reason
    case Success => Completed
    case Timeout => TimedOut
    case UserAbort => Aborted
    case PausedForUser => Paused
    case _ => Failed
  }

  /** One iteration record; records are kept in issue order and named by their position. */
  datatype LoopIteration = LoopIteration(number: nat, agent: AgentKind, ended: bool, success: bool, tokensUsed: int)

  datatype Statistics = Statistics(
    totalIterations: int, successful: nat, failed: nat, totalTokens: int,
    planning: nat, coding: nat, review: nat, fix: nat)

  /** How many records of `s` from position `start` on belong to `agent`. */
  ghost function CountAgent(s: seq<LoopIteration>, start: nat, agent: AgentKind): nat {
    if |s| <= start then 0
    else CountAgent(s[..|s| - 1], start, agent) + if s[|s| - 1].agent == agent then 1 else 0
  }

  /** How many records of `s` tell of a success. */
  ghost function CountSuccess(s: seq<LoopIteration>): nat {
    if s == [] then 0 else CountSuccess(s[..|s| - 1]) + if s[|s| - 1].success then 1 else 0
  }

  /** Tokens as the records report them now. */
  ghost function Reported(s: seq<LoopIteration>): int {
    if s == [] then 0 else Reported(s[..|s| - 1]) + s[|s| - 1].tokensUsed
  }

  lemma RecordsAppend(s: seq<LoopIteration>, start: nat, r: LoopIteration, agent: AgentKind)
    requires start <= |s|
    ensures CountAgent(s + [r], start, agent) == CountAgent(s, start, agent) + if r.agent == agent then 1 else 0
    ensures Reported(s + [r]) == Reported(s) + r.tokensUsed
  {
    assert (s + [r])[..|s|] == s;
  }

  /** Ending a record changes no count and replaces its tokens. */
  lemma {:induction false} RecordsUpdate(s: seq<LoopIteration>, i: nat, r: LoopIteration, start: nat, agent: AgentKind)
    requires i < |s| && r.agent == s[i].agent
    ensures CountAgent(s[i := r], start, agent) == CountAgent(s, start, agent)
    ensures Reported(s[i := r]) == Reported(s) - s[i].tokensUsed + r.tokensUsed
  {
    var n := |s| - 1;
    if i < n {
      RecordsUpdate(s[..n], i, r, start, agent);
      assert s[i := r][..n] == s[..n][i := r];
    } else {
      assert s[i := r][..n] == s[..n];
    }
  }

  /** Counters and record numbers agree with the records issued since the resets. */
  ghost predicate Counted(s: seq<LoopIteration>, base: nat, fixBase: nat, count: int, planned: int, fixed: int) {
    && base <= fixBase <= |s|
    && count == |s| - base
    && planned == CountAgent(s, base, Planner)
    && fixed == CountAgent(s, fixBase, Fixer)
    && forall i {:trigger NumberedAt(s, base, i)} :: base <= i < |s| ==> NumberedAt(s, base, i)
  }

  /** Records are numbered from one on since the last reset. */
  ghost predicate NumberedAt(s: seq<LoopIteration>, base: nat, i: nat)
    requires i < |s|
  {
    s[i].number == i - base + 1
  }

  lemma CountedAppend(s: seq<LoopIteration>, r: LoopIteration, base: nat, fixBase: nat,
                      count: int, planned: int, fixed: int)
    requires Counted(s, base, fixBase, count, planned, fixed) && r.number == count + 1
    ensures Counted(s + [r], base, fixBase, count + 1,
                    planned + if r.agent == Planner then 1 else 0,
                    fixed + if r.agent == Fixer then 1 else 0)
  {
    RecordsAppend(s, base, r, Planner);
    RecordsAppend(s, fixBase, r, Fixer);
    forall i | base <= i < |s + [r]|
      ensures NumberedAt(s + [r], base, i)
    {
      if i < |s| { assert NumberedAt(s, base, i); }
    }
  }

  /** The total is that of the records plus what was replaced; a record that has not been ended
      carries no tokens yet. */
  ghost predicate Booked(s: seq<LoopIteration>, total: int, replaced: int) {
    && total == Reported(s) + replaced
    && forall i {:trigger OpenAt(s, i)} :: 0 <= i < |s| ==> OpenAt(s, i)
  }

  ghost predicate OpenAt(s: seq<LoopIteration>, i: nat)
    requires i < |s|
  {
    !s[i].ended ==> s[i].tokensUsed == 0
  }

  lemma BookedAppend(s: seq<LoopIteration>, r: LoopIteration, total: int, replaced: int)
    requires Booked(s, total, replaced) && !r.ended && r.tokensUsed == 0
    ensures Booked(s + [r], total, replaced)
  {
    RecordsAppend(s, 0, r, r.agent);
    forall i | 0 <= i < |s + [r]|
      ensures OpenAt(s + [r], i)
    {
      if i < |s| { assert OpenAt(s, i); }
    }
  }

  /** Ending record `i` once more replaces its tokens. */
  lemma BookedUpdate(s: seq<LoopIteration>, i: nat, r: LoopIteration, total: int, replaced: int)
    requires Booked(s, total, replaced) && i < |s| && r.ended && r.agent == s[i].agent
    ensures Booked(s[i := r], total + r.tokensUsed, replaced + s[i].tokensUsed)
    ensures !s[i].ended ==> s[i].tokensUsed == 0
  {
    RecordsUpdate(s, i, r, 0, r.agent);
    assert OpenAt(s, i);
    var t := s[i := r];
    forall j | 0 <= j < |t|
      ensures OpenAt(t, j)
    {
      assert OpenAt(s, j);
    }
  }

  lemma CountedUpdate(s: seq<LoopIteration>, i: nat, r: LoopIteration, base: nat, fixBase: nat,
                      count: int, planned: int, fixed: int)
    requires Counted(s, base, fixBase, count, planned, fixed)
    requires i < |s| && r.agent == s[i].agent && r.number == s[i].number
    ensures Counted(s[i := r], base, fixBase, count, planned, fixed)
  {
    RecordsUpdate(s, i, r, base, Planner);
    RecordsUpdate(s, i, r, fixBase, Fixer);
    var t := s[i := r];
    forall j | base <= j < |t|
      ensures NumberedAt(t, base, j)
    {
      assert NumberedAt(s, base, j);
    }
  }

  class LoopController {
    var maxIterations: int
    const maxFixIterations: int
    const maxPlanningCycles: int
    var state: LoopState
    var iterationCount: int
    var fixIterationCount: int
    var planningCycleCount: int
    var iterations: seq<LoopIteration>
    var totalTokens: int
    var needsUserContinue: bool

    /** Where the current numbering, and the current fixer count, began. */
    ghost var base: nat
    ghost var fixBase: nat
    /** Tokens that a repeated end of the same record replaced. */
    ghost var replaced: int

    /** Counters, numbers and totals agree with the list of records. */
    ghost predicate Valid()
      reads this
    {
      && Counted(iterations, base, fixBase, iterationCount, planningCycleCount, fixIterationCount)
      && Booked(iterations, totalTokens, replaced)
    }

    ghost predicate WithinBudget()
      reads this
    {
      iterationCount <= maxIterations
    }

    constructor (maxIterations: int, maxFixIterations: int, maxPlanningCycles: int)
      ensures Valid() && state == Idle && iterations == [] && base == 0 && replaced == 0 && !needsUserContinue
      ensures this.maxIterations == maxIterations && this.maxFixIterations == maxFixIterations
      ensures this.maxPlanningCycles == maxPlanningCycles
      ensures maxIterations >= 0 ==> WithinBudget()
    {
      this.maxIterations, this.maxFixIterations := maxIterations, maxFixIterations;
      this.maxPlanningCycles := maxPlanningCycles;
      state, iterationCount, fixIterationCount, planningCycleCount := Idle, 0, 0, 0;
      iterations, totalTokens, needsUserContinue := [], 0, false;
      base, fixBase, replaced := 0, 0, 0;
    }

    /** `start`. */
    method Start()
      requires Valid()
      modifies this`state
      ensures Valid() && state == Planning
    {
      state := Planning;
    }

    /** `begin_iteration`: the position of a new record, or a pause once the budget is used up. */
    method BeginIteration(agent: AgentKind) returns (r: Option<nat>)
      requires Valid()
      modifies this`state, this`needsUserContinue, this`iterationCount, this`iterations,
               this`planningCycleCount, this`fixIterationCount
      ensures Valid()
      ensures r.None? <==> old(iterationCount) >= maxIterations
      ensures state == if r.None? then Paused else StateFor(agent)
      ensures r.Some? ==>
        (state, agent) in {(Planning, Planner), (Executing, Coder), (Reviewing, Reviewer), (Fixing, Fixer)}
      ensures iterationCount == old(iterationCount) + if r.None? then 0 else 1
      ensures fixIterationCount == old(fixIterationCount) + if r.Some? && agent == Fixer then 1 else 0
      ensures planningCycleCount == old(planningCycleCount) + if r.Some? && agent == Planner then 1 else 0
      ensures r.None? ==> needsUserContinue && iterations == old(iterations)
      ensures r.Some? ==> r.value == old(|iterations|)
      ensures r.Some? ==> iterations == old(iterations) + [LoopIteration(iterationCount, agent, false, false, 0)]
    {
      if iterationCount >= maxIterations {
        needsUserContinue := true;
        state := Paused;
        return None;
      }
      state := StateFor(agent);
      iterationCount := iterationCount + 1;
      var record := LoopIteration(iterationCount, agent, false, false, 0);
      CountedAppend(iterations, record, base, fixBase, iterationCount - 1, planningCycleCount, fixIterationCount);
      BookedAppend(iterations, record, totalTokens, replaced);
      iterations := iterations + [record];
      if agent == Planner {
        planningCycleCount := planningCycleCount + 1;
      } else if agent == Fixer {
        fixIterationCount := fixIterationCount + 1;
      }
      return Some(|iterations| - 1);
    }

    /** `end_iteration` of record `i`. */
    method EndIteration(i: nat, success: bool, tokensUsed: int)
      requires Valid() && i < |iterations|
      modifies this`totalTokens, this`iterations, this`replaced
      ensures Valid() && totalTokens == old(totalTokens) + tokensUsed
      ensures iterations ==
        old(iterations)[i := old(iterations)[i].(ended := true, success := success, tokensUsed := tokensUsed)]
      ensures replaced == old(replaced) + old(iterations)[i].tokensUsed
      ensures !old(iterations)[i].ended ==> replaced == old(replaced)
    {
      var r := iterations[i].(ended := true, success := success, tokensUsed := tokensUsed);
      CountedUpdate(iterations, i, r, base, fixBase, iterationCount, planningCycleCount, fixIterationCount);
      BookedUpdate(iterations, i, r, totalTokens, replaced);
      replaced := replaced + iterations[i].tokensUsed;
      totalTokens := totalTokens + tokensUsed;
      iterations := iterations[i := r];
    }

    predicate CanFixAgain()
      reads this
    {
      fixIterationCount < maxFixIterations
    }

    predicate CanReplan()
      reads this
    {
      planningCycleCount < maxPlanningCycles
    }

    method ResetFixCounter()
      requires Valid()
      modifies this`fixIterationCount, this`fixBase
      ensures Valid() && fixIterationCount == 0
    {
      fixIterationCount := 0;
      fixBase := |iterations|;
    }

    /** `reset_for_new_task`: the records and the token total survive, the counters restart. */
    method ResetForNewTask()
      requires Valid()
      modifies this`state, this`iterationCount, this`fixIterationCount, this`planningCycleCount,
               this`needsUserContinue, this`base, this`fixBase
      ensures Valid() && state == Planning && base == |iterations| && !needsUserContinue
      ensures iterationCount == fixIterationCount == planningCycleCount == 0
      ensures maxIterations >= 0 ==> WithinBudget()
    {
      state, iterationCount, fixIterationCount, planningCycleCount := Planning, 0, 0, 0;
      needsUserContinue := false;
      base, fixBase := |iterations|, |iterations|;
    }

    /** `extend_iterations`; a negative amount is accepted, and is what can break the budget. */
    method ExtendIterations(additional: int)
      requires Valid()
      modifies this`maxIterations, this`needsUserContinue, this`state
      ensures Valid() && state == Executing && !needsUserContinue && maxIterations == old(maxIterations) + additional
      ensures old(WithinBudget()) && additional >= 0 ==> WithinBudget()
      ensures WithinBudget() <==> iterationCount - old(maxIterations) <= additional
    {
      maxIterations := maxIterations + additional;
      needsUserContinue := false;
      state := Executing;
    }

    method Terminate(reason: TerminationReason)
      requires Valid()
      modifies this`state
      ensures Valid() && state == FinalState(reason)
    {
      state := FinalState(reason);
    }

    /** `get_statistics` counts all records ever issued, but reports the current numbering as the
        total; the two differ by exactly the records from before the last reset. */
    method GetStatistics() returns (s: Statistics)
      requires Valid()
      ensures s.successful == CountSuccess(iterations) && s.successful + s.failed == |iterations|
      ensures s.successful + s.failed == s.totalIterations + base
      ensures s.planning == CountAgent(iterations, 0, Planner) && s.coding == CountAgent(iterations, 0, Coder)
      ensures s.review == CountAgent(iterations, 0, Reviewer) && s.fix == CountAgent(iterations, 0, Fixer)
      ensures s.planning + s.coding + s.review + s.fix == s.successful + s.failed
      ensures s.totalTokens == Reported(iterations) + replaced
    {
      var successful, failed, planning, coding, review, fix := 0, 0, 0, 0, 0, 0;
      for k := 0 to |iterations|
        invariant successful + failed == k == planning + coding + review + fix
        invariant successful == CountSuccess(iterations[..k])
        invariant planning == CountAgent(iterations[..k], 0, Planner) && coding == CountAgent(iterations[..k], 0, Coder)
        invariant review == CountAgent(iterations[..k], 0, Reviewer) && fix == CountAgent(iterations[..k], 0, Fixer)
      {
        var r := iterations[k];
        assert iterations[..k + 1][..k] == iterations[..k];
        if r.success { successful := successful + 1; } else { failed := failed + 1; }
        match r.agent {
          case Planner => planning := planning + 1;
          case Coder => coding := coding + 1;
          case Reviewer => review := review + 1;
          case Fixer => fix := fix + 1;
        }
      }
      assert iterations[..|iterations|] == iterations;
      s := Statistics(iterationCount, successful, failed, totalTokens, planning, coding, review, fix);
    }
  }
}
