/**
  Tool plans: validation, the flattened list of planned names, and the bounded execution of
  steps with their fallback chains.
 */
module ToolPlans {
  import opened Options

  datatype Step = Step(tool: string, reason: string, fallback: Option<Step>)

  /** A plan holds at most three steps. */
  type ToolPlan = p: seq<Step> | |p| <= 3

  /** The tool policy in force. `blank` and `anchored` stand for the two textual tests on a reason. */
  datatype Policy = Policy(
    knownTools: set<string>, profileTools: set<string>, maxToolSteps: int,
    fallbackAllowed: bool, requireEvidence: bool,
    blank: string -> bool, anchored: string -> bool)

  datatype PlanError =
    TooManySteps | TooDeep | UnknownTool(tool: string) | MissingReason(tool: string) | NoEvidence(tool: string)

  /** `_effective_max_tool_steps`. */
  function MaxSteps(p: Policy): nat {
    if p.maxToolSteps < 1 then 1 else if p.maxToolSteps > 6 then 6 else p.maxToolSteps
  }

  /** `_is_allowed_tool_name`. */
  predicate Allowed(p: Policy, tool: string) {
    tool != "" && ((tool in p.knownTools && tool in p.profileTools) || ("mcp_" <= tool && tool in p.profileTools))
  }

  /** The tools of a step and of its fallbacks, in order. */
  function Chain(s: Step): (c: seq<string>)
    ensures |c| >= 1
  {
    [s.tool] + match s.fallback { case None => [] case Some(f) => Chain(f) }
  }

  function StepErrors(p: Policy, s: Step, depth: nat): seq<PlanError> {
    if depth > MaxSteps(p) then [TooDeep]
    else
      (if Allowed(p, s.tool) then [] else [UnknownTool(s.tool)])
      + (if p.blank(s.reason) then [MissingReason(s.tool)]
         else if p.requireEvidence && !p.anchored(s.reason) then [NoEvidence(s.tool)] else [])
      + match s.fallback { case None => [] case Some(f) => StepErrors(p, f, depth + 1) }
  }

  function StepsErrors(p: Policy, steps: seq<Step>): seq<PlanError> {
    if steps == [] then [] else StepErrors(p, steps[0], 0) + StepsErrors(p, steps[1..])
  }

  function First<T>(s: seq<T>, n: nat): seq<T> {
    if |s| <= n then s else s[..n]
  }

  /** `_validate_tool_plan`: the step count, then the first three steps. */
  function Validate(p: Policy, plan: ToolPlan): seq<PlanError> {
    (if |plan| > MaxSteps(p) then [TooManySteps] else []) + StepsErrors(p, First(plan, 3))
  }

  /** A step and its fallbacks, in order. */
  function Levels(s: Step): seq<Step> {
    [s] + match s.fallback { case None => [] case Some(f) => Levels(f) }
  }

  /** The tool is one of the profile, and known or named as one of a server; the reason is given, and
      anchored where evidence is asked for. */
  predicate LevelOk(p: Policy, s: Step) {
    && s.tool != "" && s.tool in p.profileTools
    && (s.tool in p.knownTools || (|s.tool| >= 4 && s.tool[..4] == "mcp_"))
    && !p.blank(s.reason) && (p.requireEvidence ==> p.anchored(s.reason))
  }

  lemma {:induction false} StepValid(p: Policy, s: Step, depth: nat)
    ensures StepErrors(p, s, depth) == [] <==>
      depth + |Levels(s)| <= MaxSteps(p) + 1 && forall l :: l in Levels(s) ==> LevelOk(p, l)
    decreases s
  {
    NamedAsServer(s.tool);
    assert Allowed(p, s.tool) && !p.blank(s.reason) && (p.requireEvidence ==> p.anchored(s.reason)) <==> LevelOk(p, s);
    if s.fallback.Some? {
      var f := s.fallback.value;
      StepValid(p, f, depth + 1);
      assert Levels(s) == [s] + Levels(f);
      assert forall l :: l in Levels(s) <==> l == s || l in Levels(f);
    } else {
      assert Levels(s) == [s];
    }
  }

  lemma NamedAsServer(tool: string)
    ensures "mcp_" <= tool <==> |tool| >= 4 && tool[..4] == "mcp_"
  {
  }

  /** A plan is valid exactly if it has no more steps, and no step more fallbacks, than the configured
      number, taken between one and six; and every step and fallback is in order. */
  lemma PlanValid(p: Policy, plan: ToolPlan, m: nat)
    requires 1 <= m <= 6 && (m == p.maxToolSteps || (m == 1 && p.maxToolSteps < 1) || (m == 6 && p.maxToolSteps > 6))
    ensures Validate(p, plan) == [] <==>
      |plan| <= m && forall s :: s in plan ==> |Levels(s)| <= m + 1 && forall l :: l in Levels(s) ==> LevelOk(p, l)
  {
    assert First(plan, 3) == plan;
    StepsValid(p, plan);
    forall s | s in plan
      ensures StepErrors(p, s, 0) == [] <==> |Levels(s)| <= m + 1 && forall l :: l in Levels(s) ==> LevelOk(p, l)
    {
      StepValid(p, s, 0);
    }
  }

  lemma {:induction false} StepsValid(p: Policy, steps: seq<Step>)
    ensures StepsErrors(p, steps) == [] <==> forall s :: s in steps ==> StepErrors(p, s, 0) == []
  {
    if steps != [] {
      StepsValid(p, steps[1..]);
      var rest := steps[1..];
      assert steps[0] in steps && forall s :: s in rest ==> s in steps;
      forall s | s in steps ensures s == steps[0] || s in rest { assert steps == [steps[0]] + rest; }
    }
  }

  function Walk(p: Policy, s: Step, depth: nat): seq<string> {
    if depth > MaxSteps(p) then []
    else [s.tool] + match s.fallback { case None => [] case Some(f) => Walk(p, f, depth + 1) }
  }

  function WalkAll(p: Policy, steps: seq<Step>): seq<string> {
    if steps == [] then [] else Walk(p, steps[0], 0) + WalkAll(p, steps[1..])
  }

  /** `_flatten_tool_plan_names`. */
  function Flatten(p: Policy, plan: ToolPlan): seq<string> {
    WalkAll(p, First(plan, MaxSteps(p)))
  }

  /** `a` is `b` with some elements left out. */
  predicate Subsequence<T(==)>(a: seq<T>, b: seq<T>) {
    a == [] || (b != [] && ((a[0] == b[0] && Subsequence(a[1..], b[1..])) || Subsequence(a, b[1..])))
  }

  lemma {:induction false} PrefixSubsequence<T>(a: seq<T>, b: seq<T>)
    requires a <= b
    ensures Subsequence(a, b)
  {
    if a != [] { PrefixSubsequence(a[1..], b[1..]); }
  }

  lemma {:induction false} SubsequenceConcat<T>(a: seq<T>, b: seq<T>, c: seq<T>, d: seq<T>)
    requires Subsequence(a, b) && Subsequence(c, d)
    ensures Subsequence(a + c, b + d)
    decreases |b|
  {
    if b == [] {
      assert a + c == c && b + d == d;
    } else {
      assert (b + d)[1..] == b[1..] + d;
      if a == [] {
        assert a + c == c;
        SubsequenceConcat(a, b[1..], c, d);
      } else if a[0] == b[0] && Subsequence(a[1..], b[1..]) {
        SubsequenceConcat(a[1..], b[1..], c, d);
        assert (a + c)[1..] == a[1..] + c;
      } else {
        SubsequenceConcat(a, b[1..], c, d);
      }
    }
  }

  /** `results(i)` tells whether the `i`-th tool execution of the run succeeded. */
  type Results = int -> bool

  /** The first `n` tools of a chain ran, as executions `at`, `at + 1`, ...: up to the first success,
      but no further than the chain, the remaining levels and the profile allow. */
  ghost predicate StepRun(p: Policy, chain: seq<string>, results: Results, at: nat, n: nat, ok: bool, levels: nat) {
    && 1 <= n <= |chain| && n <= levels && (!p.fallbackAllowed ==> n == 1)
    && (forall i :: at <= i < at + n - 1 ==> !results(i))
    && (ok <==> results(at + n - 1))
    && (ok || n == |chain| || n == levels || !p.fallbackAllowed)
  }

  /** The step turned the list `before` into `after`. A fallback that was entered counts, even one that
      depth or profile then kept from running. */
  ghost predicate StepDone(p: Policy, step: Step, results: Results, before: seq<string>, after: seq<string>,
                           ok: bool, fallbacks: nat, levels: nat) {
    && |before| <= |after|
    && var n := |after| - |before|;
      && StepRun(p, Chain(step), results, |before|, n, ok, levels)
      && after == before + Chain(step)[..n]
      && fallbacks == if !ok && n < |Chain(step)| then n else n - 1
  }

  /** Only the step's own tool runs: it succeeds, or has no fallback, or may not use it. */
  lemma ToolDone(p: Policy, step: Step, results: Results, before: seq<string>, levels: nat)
    requires levels >= 1
    requires results(|before|) || step.fallback.None? || !p.fallbackAllowed || levels == 1
    ensures StepDone(p, step, results, before, before + [step.tool], results(|before|),
                     if results(|before|) || step.fallback.None? then 0 else 1, levels)
  {
    assert Chain(step)[..1] == [step.tool];
  }

  lemma FallbackDone(p: Policy, step: Step, results: Results, before: seq<string>, after: seq<string>,
                     ok: bool, fallbacks: nat, levels: nat)
    requires step.fallback.Some? && !results(|before|) && p.fallbackAllowed && levels >= 2
    requires StepDone(p, step.fallback.value, results, before + [step.tool], after, ok, fallbacks, levels - 1)
    ensures StepDone(p, step, results, before, after, ok, fallbacks + 1, levels)
  {
    var n, rest := |after| - |before|, Chain(step.fallback.value);
    assert Chain(step) == [step.tool] + rest && Chain(step)[..n] == [step.tool] + rest[..n - 1];
    assert after == before + [step.tool] + rest[..n - 1];
    assert after == before + Chain(step)[..n];
    FallbackRun(p, step.tool, rest, results, |before|, n, ok, levels);
  }

  /** A tool that fails and then a run of its fallbacks. */
  lemma FallbackRun(p: Policy, tool: string, rest: seq<string>, results: Results, start: nat, n: nat,
                    ok: bool, levels: nat)
    requires n >= 1 && !results(start) && p.fallbackAllowed && levels >= 2
    requires StepRun(p, rest, results, start + 1, n - 1, ok, levels - 1)
    ensures StepRun(p, [tool] + rest, results, start, n, ok, levels)
  {
  }

  /** `_execute_tool_plan_step` at fallback depth `depth`, appending to `executed`. */
  method ExecuteStep(p: Policy, results: Results, step: Step, executed: seq<string>, depth: nat)
    returns (ok: bool, executed': seq<string>, fallbacks: nat)
    ensures depth > 3 || (!p.fallbackAllowed && depth > 0) ==> !ok && executed' == executed && fallbacks == 0
    ensures depth <= 3 && (p.fallbackAllowed || depth == 0) ==>
      StepDone(p, step, results, executed, executed', ok, fallbacks, 4 - depth)
    decreases step
  {
    executed' := executed;
    if depth > 3 { return false, executed', 0; }
    if !p.fallbackAllowed && depth > 0 { return false, executed', 0; }
    var success := results(|executed|);
    executed' := executed + [step.tool];
    if success || step.fallback.None? || !p.fallbackAllowed || depth == 3 {
      ToolDone(p, step, results, executed, 4 - depth);
    }
    if success { return true, executed', 0; }
    if step.fallback.None? { return false, executed', 0; }
    ok, executed', fallbacks := ExecuteStep(p, results, step.fallback.value, executed', depth + 1);
    if p.fallbackAllowed && depth < 3 {
      FallbackDone(p, step, results, executed, executed', ok, fallbacks, 4 - depth);
    }
    fallbacks := fallbacks + 1;
  }

  /** The plan executed the tools `executed`: either an earlier step failed and the last one never
      ran, or the steps before the last all succeeded and the last one ran where they left off. The
      plan succeeds exactly when every step does. */
  ghost predicate PlanRun(p: Policy, steps: seq<Step>, results: Results, executed: seq<string>, ok: bool)
    decreases |steps|, 1
  {
    if steps == [] then executed == [] && ok
    else
      var before := steps[..|steps| - 1];
      || (!ok && PlanRun(p, before, results, executed, false))
      || LastRan(p, before, steps[|steps| - 1], results, executed, ok)
  }

  /** The last step ran `n` tools after the others had executed `done` and succeeded. */
  ghost predicate LastRan(p: Policy, before: seq<Step>, last: Step, results: Results, executed: seq<string>, ok: bool)
    decreases |before| + 1, 0
  {
    exists done: seq<string>, n: nat ::
      PlanRun(p, before, results, done, true) && LastRun(p, last, results, done, n, executed, ok)
  }

  ghost predicate LastRun(p: Policy, last: Step, results: Results, done: seq<string>, n: nat,
                          executed: seq<string>, ok: bool)
  {
    StepRun(p, Chain(last), results, |done|, n, ok, 4) && executed == done + Chain(last)[..n]
  }

  /** Running one more step after a successful plan. */
  lemma PlanRunAppend(p: Policy, steps: seq<Step>, last: Step, results: Results, done: seq<string>,
                      executed: seq<string>, ok: bool, fallbacks: nat)
    requires PlanRun(p, steps, results, done, true) && StepDone(p, last, results, done, executed, ok, fallbacks, 4)
    ensures PlanRun(p, steps + [last], results, executed, ok)
  {
    assert (steps + [last])[..|steps|] == steps;
    assert LastRun(p, last, results, done, |executed| - |done|, executed, ok);
    assert LastRan(p, steps, last, results, executed, ok);
  }

  /** A plan that failed in its first steps failed as a whole. */
  lemma {:induction false} PlanRunStopped(p: Policy, steps: seq<Step>, k: nat, results: Results, executed: seq<string>)
    requires k <= |steps| && PlanRun(p, steps[..k], results, executed, false)
    ensures PlanRun(p, steps, results, executed, false)
    decreases |steps| - k
  {
    if k < |steps| {
      assert steps[..k + 1][..k] == steps[..k];
      PlanRunStopped(p, steps, k + 1, results, executed);
    } else {
      assert steps[..k] == steps;
    }
  }

  lemma StepRunDetermined(p: Policy, chain: seq<string>, results: Results, at: nat, n: nat, ok: bool, m: nat, ok2: bool)
    requires StepRun(p, chain, results, at, n, ok, 4) && StepRun(p, chain, results, at, m, ok2, 4)
    ensures n == m && ok == ok2
  {
    assert results(at + n - 1) == ok && results(at + m - 1) == ok2;
  }

  /** The results of the tools determine what is executed and whether the plan succeeds. */
  lemma {:induction false} PlanRunDetermined(p: Policy, steps: seq<Step>, results: Results,
                                             executed: seq<string>, ok: bool, executed2: seq<string>, ok2: bool)
    requires PlanRun(p, steps, results, executed, ok) && PlanRun(p, steps, results, executed2, ok2)
    ensures executed == executed2 && ok == ok2
  {
    if steps != [] {
      var before, last := steps[..|steps| - 1], steps[|steps| - 1];
      if LastRan(p, before, last, results, executed, ok) {
        var done, n: nat :| PlanRun(p, before, results, done, true) && LastRun(p, last, results, done, n, executed, ok);
        if LastRan(p, before, last, results, executed2, ok2) {
          var done2, m: nat :| PlanRun(p, before, results, done2, true) &&
            LastRun(p, last, results, done2, m, executed2, ok2);
          PlanRunDetermined(p, before, results, done, true, done2, true);
          StepRunDetermined(p, Chain(last), results, |done|, n, ok, m, ok2);
        } else {
          PlanRunDetermined(p, before, results, done, true, executed2, false);
        }
      } else if LastRan(p, before, last, results, executed2, ok2) {
        var done2, m: nat :| PlanRun(p, before, results, done2, true) &&
          LastRun(p, last, results, done2, m, executed2, ok2);
        PlanRunDetermined(p, before, results, done2, true, executed, false);
      } else {
        PlanRunDetermined(p, before, results, executed, false, executed2, false);
      }
    }
  }

  /** The plan is invalid, or one of its steps fails. */
  ghost predicate PlanFails(p: Policy, plan: ToolPlan, results: Results) {
    Validate(p, plan) != [] || exists executed :: PlanRun(p, First(plan, MaxSteps(p)), results, executed, false)
  }

  /** `_execute_subtask_tool_plan`: an invalid plan runs nothing. */
  method ExecutePlan(p: Policy, results: Results, plan: ToolPlan)
    returns (ok: bool, executed: seq<string>, fallbacks: nat)
    ensures Validate(p, plan) != [] ==> executed == []
    ensures Validate(p, plan) == [] ==> PlanRun(p, First(plan, MaxSteps(p)), results, executed, ok)
    ensures ok <==> !PlanFails(p, plan, results)
    ensures fallbacks <= |executed| && (ok ==> fallbacks == |executed| - |First(plan, MaxSteps(p))|)
  {
    executed, fallbacks := [], 0;
    if Validate(p, plan) != [] { return false, [], 0; }
    var steps := First(plan, MaxSteps(p));
    for k := 0 to |steps|
      invariant PlanRun(p, steps[..k], results, executed, true) && fallbacks == |executed| - k
    {
      var used;
      ghost var before := executed;
      ok, executed, used := ExecuteStep(p, results, steps[k], executed, 0);
      fallbacks := fallbacks + used;
      PlanRunNext(p, steps, k, results, before, executed, ok, used);
      if !ok { return false, executed, fallbacks; }
    }
    assert steps[..|steps|] == steps;
    RunNotFailed(p, steps, results, executed);
    ok := true;
  }

  lemma PlanRunNext(p: Policy, steps: seq<Step>, k: nat, results: Results, done: seq<string>,
                    executed: seq<string>, ok: bool, fallbacks: nat)
    requires k < |steps| && PlanRun(p, steps[..k], results, done, true)
    requires StepDone(p, steps[k], results, done, executed, ok, fallbacks, 4)
    ensures PlanRun(p, steps[..k + 1], results, executed, ok)
    ensures !ok ==> PlanRun(p, steps, results, executed, false)
  {
    PlanRunAppend(p, steps[..k], steps[k], results, done, executed, ok, fallbacks);
    assert steps[..k + 1] == steps[..k] + [steps[k]];
    if !ok { PlanRunStopped(p, steps, k + 1, results, executed); }
  }

  lemma RunNotFailed(p: Policy, steps: seq<Step>, results: Results, executed: seq<string>)
    requires PlanRun(p, steps, results, executed, true)
    ensures forall other :: !PlanRun(p, steps, results, other, false)
  {
    forall other | PlanRun(p, steps, results, other, false)
      ensures false
    {
      PlanRunDetermined(p, steps, results, executed, true, other, false);
    }
  }

  lemma {:induction false} ValidChain(p: Policy, s: Step, depth: nat)
    requires StepErrors(p, s, depth) == []
    ensures forall t :: t in Chain(s) ==> Allowed(p, t)
    ensures Walk(p, s, depth) == Chain(s)
    decreases s
  {
    if s.fallback.Some? { ValidChain(p, s.fallback.value, depth + 1); }
  }

  lemma PeelFirst<T>(s: seq<T>, x: T)
    requires s != []
    ensures (s + [x])[0] == s[0] && (s + [x])[1..] == s[1..] + [x]
  {
  }

  lemma Reassociate<T>(a: seq<T>, b: seq<T>, c: seq<T>)
    ensures a + (b + c) == (a + b) + c
  {
  }

  lemma {:induction false} ErrorsAppend(p: Policy, steps: seq<Step>, s: Step)
    ensures StepsErrors(p, steps + [s]) == StepsErrors(p, steps) + StepErrors(p, s, 0)
  {
    var all := steps + [s];
    if steps == [] {
      assert all == [s] && all[1..] == [];
    } else {
      var first, rest := StepErrors(p, steps[0], 0), steps[1..];
      PeelFirst(steps, s);
      calc {
        StepsErrors(p, all);
        first + StepsErrors(p, rest + [s]);
        { ErrorsAppend(p, rest, s); }
        first + (StepsErrors(p, rest) + StepErrors(p, s, 0));
        { Reassociate(first, StepsErrors(p, rest), StepErrors(p, s, 0)); }
        (first + StepsErrors(p, rest)) + StepErrors(p, s, 0);
        StepsErrors(p, steps) + StepErrors(p, s, 0);
      }
    }
  }

  lemma {:induction false} WalkAppend(p: Policy, steps: seq<Step>, s: Step)
    ensures WalkAll(p, steps + [s]) == WalkAll(p, steps) + Walk(p, s, 0)
  {
    var all := steps + [s];
    if steps == [] {
      assert all == [s] && all[1..] == [];
    } else {
      var first, rest := Walk(p, steps[0], 0), steps[1..];
      assert all[0] == steps[0] && all[1..] == rest + [s];
      calc {
        WalkAll(p, all);
        first + WalkAll(p, rest + [s]);
        { WalkAppend(p, rest, s); }
        first + (WalkAll(p, rest) + Walk(p, s, 0));
        (first + WalkAll(p, rest)) + Walk(p, s, 0);
        WalkAll(p, steps) + Walk(p, s, 0);
      }
    }
  }

  lemma {:induction false} PlanRunPlanned(p: Policy, steps: seq<Step>, results: Results,
                                          executed: seq<string>, ok: bool)
    requires StepsErrors(p, steps) == [] && PlanRun(p, steps, results, executed, ok)
    ensures forall t :: t in executed ==> Allowed(p, t)
    ensures Subsequence(executed, WalkAll(p, steps)) && |executed| <= 4 * |steps|
  {
    if steps != [] {
      var before, last := steps[..|steps| - 1], steps[|steps| - 1];
      assert steps == before + [last];
      ErrorsAppend(p, before, last);
      WalkAppend(p, before, last);
      ValidChain(p, last, 0);
      if !ok && PlanRun(p, before, results, executed, false) {
        PlanRunPlanned(p, before, results, executed, false);
        SubsequenceConcat(executed, WalkAll(p, before), [], Walk(p, last, 0));
        assert executed + [] == executed;
      } else {
        assert LastRan(p, before, last, results, executed, ok);
        var done, n: nat :| PlanRun(p, before, results, done, true) && LastRun(p, last, results, done, n, executed, ok);
        PlanRunPlanned(p, before, results, done, true);
        PrefixSubsequence(Chain(last)[..n], Chain(last));
        SubsequenceConcat(done, WalkAll(p, before), Chain(last)[..n], Walk(p, last, 0));
      }
    }
  }

  /** A validated plan only ever runs tools of the profile, at most four per step, in planned order. */
  lemma PlanRunStaysPlanned(p: Policy, plan: ToolPlan, results: Results, executed: seq<string>, ok: bool)
    requires Validate(p, plan) == []
    requires PlanRun(p, First(plan, MaxSteps(p)), results, executed, ok)
    ensures forall t :: t in executed ==> t in p.profileTools
    ensures Subsequence(executed, Flatten(p, plan)) && |executed| <= 4 * |plan|
  {
    assert First(plan, MaxSteps(p)) == plan == First(plan, 3);
    PlanRunPlanned(p, plan, results, executed, ok);
  }
}
