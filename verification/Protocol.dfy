/**
  The code-review-fix protocol as a language of events: what may follow what when every agent call is
  answered by an oracle, and how a run may end.
 */
module Protocols {
  import opened Options
  import opened Reviewers
  import opened ToolPlans
  import opened Hunks

  /** With hunks a change edits lines, without it replaces the whole content. The agent's hunks are
      `readable` if their line numbers are natural numbers. */
  datatype Change = Change(
    path: string, changeType: string, description: string, newContent: string, hunks: seq<Hunk>,
    readable: bool, linesAdded: int, linesRemoved: int)

  /** `fallbackChanges` are the canned changes of a task simple enough to have them. */
  datatype Subtask = Subtask(
    id: string, dependencies: seq<string>, criteria: set<string>,
    fallbackChanges: Option<seq<Change>>, toolPlan: Option<ToolPlan>)

  /** What each agent may answer; tool calls are given by name and arguments. `malformed` marks an
      error that mentions parsing or JSON. */
  datatype PlannerAnswer = PlanOk(subtasks: seq<Subtask>, calls: seq<(string, string)>) | PlanError(malformed: bool)
  datatype CoderAnswer = CoderOk(changes: seq<Change>, toolCalls: seq<string>) | CoderError(malformed: bool)
  datatype ReviewerAnswer = ReviewOk(raw: RawReview) | ReviewError(malformed: bool)
  datatype FixerAnswer = FixOk(changes: seq<Change>) | FixError(malformed: bool)

  /** Everything outside the executor: agent answers, token counts, tool results, the two
      fingerprint comparisons and the file edits, each indexed by the number of agent calls made
      before; the results of a tool plan by its task as well, as two plans may run with no call between. */
  datatype World = World(
    planner: nat -> PlannerAnswer, coder: nat -> CoderAnswer,
    reviewer: nat -> ReviewerAnswer, fixer: nat -> FixerAnswer,
    tokens: nat -> int, tools: (string, nat) -> Results, noProgress: nat -> bool, sameChanges: nat -> bool,
    applyOk: nat -> bool, safe: string -> bool)

  /** A task's run: who answers, under which tool policy, for which task, and how many agent calls came
      before it. */
  datatype Script = Script(world: World, policy: Policy, subtask: Subtask, at: nat)

  datatype CoderOutput = CoderTools | CoderDone(changes: seq<Change>) | CoderFailed

  /** What the protocol did, in order; the first three are agent calls. */
  datatype Event =
    | Coded(out: CoderOutput)
    | Reviewed(changes: seq<Change>, review: Option<Review>)
    | Fixed(fixes: Option<seq<Change>>)
    | Shifted
    | Applied(changes: seq<Change>, ok: bool)

  datatype TaskOutcome = TaskDone | TaskFailed | TaskPaused | TaskRaised

  predicate IsCall(e: Event) {
    e.Coded? || e.Reviewed? || e.Fixed?
  }

  ghost function Calls(ev: seq<Event>): nat {
    |set i | 0 <= i < |ev| && IsCall(ev[i])|
  }

  ghost function Fixes(ev: seq<Event>): nat {
    |set i | 0 <= i < |ev| && ev[i].Fixed?|
  }

  ghost function Shifts(ev: seq<Event>): nat {
    |set i | 0 <= i < |ev| && ev[i].Shifted?|
  }

  lemma CallsAppend(ev: seq<Event>, e: Event)
    ensures Calls(ev + [e]) == Calls(ev) + if IsCall(e) then 1 else 0
  {
    var all, n := ev + [e], |ev|;
    assert (set i | 0 <= i < |all| && IsCall(all[i])) ==
      (set i | 0 <= i < n && IsCall(ev[i])) + if IsCall(e) then {n} else {};
  }

  lemma FixesAppend(ev: seq<Event>, e: Event)
    ensures Fixes(ev + [e]) == Fixes(ev) + if e.Fixed? then 1 else 0
  {
    var all, n := ev + [e], |ev|;
    assert (set i | 0 <= i < |all| && all[i].Fixed?) ==
      (set i | 0 <= i < n && ev[i].Fixed?) + if e.Fixed? then {n} else {};
  }

  lemma ShiftsAppend(ev: seq<Event>, e: Event)
    ensures Shifts(ev + [e]) == Shifts(ev) + if e.Shifted? then 1 else 0
  {
    var all, n := ev + [e], |ev|;
    assert (set i | 0 <= i < |all| && all[i].Shifted?) ==
      (set i | 0 <= i < n && ev[i].Shifted?) + if e.Shifted? then {n} else {};
  }

  lemma EventAppend(ev: seq<Event>, e: Event)
    ensures Calls(ev + [e]) == Calls(ev) + if IsCall(e) then 1 else 0
    ensures Fixes(ev + [e]) == Fixes(ev) + if e.Fixed? then 1 else 0
    ensures Shifts(ev + [e]) == Shifts(ev) + if e.Shifted? then 1 else 0
  {
    CallsAppend(ev, e);
    FixesAppend(ev, e);
    ShiftsAppend(ev, e);
  }

  /** What becomes of a coder's answer. */
  function CoderOut(t: Subtask, a: CoderAnswer): CoderOutput {
    match a
    case CoderError(malformed) =>
      if malformed && t.fallbackChanges.Some? then CoderDone(t.fallbackChanges.value) else CoderFailed
    case CoderOk(changes, toolCalls) =>
      if toolCalls != [] then CoderTools else CoderDone(changes)
  }

  function ChangedPaths(changes: seq<Change>): set<string> {
    set c | c in changes && c.path != "" :: c.path
  }

  /** What becomes of a reviewer's answer: a malformed one counts as the fallback approval. */
  ghost predicate ReviewOut(s: Script, a: ReviewerAnswer, changes: seq<Change>, out: Option<Review>) {
    match a
    case ReviewOk(raw) => out.Some? && Normalised(raw, ChangedPaths(changes), s.world.safe, out.value)
    case ReviewError(malformed) => out == if malformed then Some(FallbackReview(s.subtask.criteria)) else None
  }

  /** What becomes of a fixer's answer: a malformed one hands the old changes on. */
  function FixOut(a: FixerAnswer, changes: seq<Change>): Option<seq<Change>> {
    match a
    case FixOk(fixes) => Some(fixes)
    case FixError(malformed) => if malformed then Some(changes) else None
  }

  /** The number of agent calls made when `ev` has happened. */
  ghost function Now(s: Script, ev: seq<Event>): nat {
    s.at + Calls(ev)
  }

  /** A review after a fix, and no progress since the review before. */
  ghost predicate Stagnant(s: Script, ev: seq<Event>) {
    |ev| >= 2 && ev[|ev| - 2].Fixed? && s.world.noProgress(Now(s, ev))
  }

  /** A review that asks for changes. */
  predicate Continues(r: Option<Review>) {
    r.Some? && !r.value.taskComplete && r.value.verdict != Reject
  }

  /** The changes a coder run hands to the review; those of a strategy shift must be new. */
  ghost predicate Accepted(s: Script, ev: seq<Event>, changes: seq<Change>) {
    changes != [] && (Shifts(ev) > 0 ==> !s.world.sameChanges(Now(s, ev)))
  }

  /** `e` is a review of exactly these changes. */
  ghost predicate Reviews(s: Script, ev: seq<Event>, changes: seq<Change>, e: Event) {
    e.Reviewed? && e.changes == changes && ReviewOut(s, s.world.reviewer(Now(s, ev)), changes, e.review)
  }

  /** The coder is about to start, and the task's tool plan, which comes first, fails. */
  ghost predicate ToolsFail(s: Script, ev: seq<Event>) {
    s.subtask.toolPlan.Some? && PlanFails(s.policy, s.subtask.toolPlan.value, s.world.tools(s.subtask.id, Now(s, ev)))
  }

  /** What may happen next. */
  ghost predicate Allowed(s: Script, ev: seq<Event>, e: Event) {
    if ev == [] || ev[|ev| - 1] in {Shifted, Coded(CoderTools)} then
      e == Coded(CoderOut(s.subtask, s.world.coder(Now(s, ev)))) &&
      ((ev != [] && ev[|ev| - 1].Coded?) || !ToolsFail(s, ev))
    else
      match ev[|ev| - 1]
      case Coded(out) => out.CoderDone? && Accepted(s, ev, out.changes) && Reviews(s, ev, out.changes, e)
      case Reviewed(c, r) =>
        if Continues(r) then
          if Stagnant(s, ev) then Shifts(ev) == 0 && e == Shifted
          else e == Fixed(FixOut(s.world.fixer(Now(s, ev)), c))
        else r.Some? && r.value.taskComplete && GateOk(r.value) && e == Applied(c, s.world.applyOk(Now(s, ev)))
      case Fixed(fixes) => fixes.Some? && Reviews(s, ev, fixes.value, e)
      case _ => false
  }

  ghost predicate StepOk(s: Script, ev: seq<Event>, i: nat)
    requires i < |ev|
  {
    Allowed(s, ev[..i], ev[i])
  }

  ghost predicate Disciplined(s: Script, ev: seq<Event>) {
    forall i {:trigger StepOk(s, ev, i)} :: 0 <= i < |ev| ==> StepOk(s, ev, i)
  }

  lemma Extend(s: Script, ev: seq<Event>, e: Event)
    requires Disciplined(s, ev) && Allowed(s, ev, e)
    ensures Disciplined(s, ev + [e])
  {
    var all := ev + [e];
    forall i | 0 <= i < |all|
      ensures StepOk(s, all, i)
    {
      assert all[..i] == ev[..i];
      if i < |ev| { assert StepOk(s, ev, i); } else { assert ev[..i] == ev; }
    }
  }

  /** The change list an event hands to the next review. */
  function Produced(e: Event): Option<seq<Change>> {
    match e
    case Coded(CoderDone(c)) => Some(c)
    case Fixed(Some(c)) => Some(c)
    case _ => None
  }

  /** In a disciplined run at most one list is applied, as the last event; it is the very list that the
      coder or the fixer had just produced, the review of it let the task finish and passed the gate,
      and no issue kept in that review is severe or blocking. */
  lemma AppliedOnce(s: Script, ev: seq<Event>, i: nat, j: nat)
    requires Disciplined(s, ev) && i < |ev| && j < |ev| && ev[i].Applied? && ev[j].Applied?
    ensures i == j == |ev| - 1 && i >= 2
    ensures Produced(ev[i - 2]) == Some(ev[i].changes)
    ensures ev[i - 1].Reviewed? && ev[i - 1].changes == ev[i].changes
    ensures ev[i - 1].review.Some? && ev[i - 1].review.value.taskComplete && GateOk(ev[i - 1].review.value)
    ensures forall x :: x in ev[i - 1].review.value.issues ==> !Blocks(x)
  {
    AppliedLast(s, ev, i);
    AppliedLast(s, ev, j);
    assert StepOk(s, ev, i) && ev[..i][i - 1] == ev[i - 1];
    assert StepOk(s, ev, i - 1) && ev[..i - 1][i - 2] == ev[i - 2];
    SafeReview(s, s.world.reviewer(Now(s, ev[..i - 1])), ev[i - 1].changes, ev[i - 1].review);
  }

  lemma AppliedLast(s: Script, ev: seq<Event>, i: nat)
    requires Disciplined(s, ev) && i < |ev| && ev[i].Applied?
    ensures i == |ev| - 1 && i >= 2
  {
    if i + 1 < |ev| { NothingAfterApplied(s, ev, i + 1); }
    assert StepOk(s, ev, i);
    assert ev[..i][i - 1] == ev[i - 1] && StepOk(s, ev, i - 1);
  }

  lemma NothingAfterApplied(s: Script, ev: seq<Event>, j: nat)
    requires Disciplined(s, ev) && 1 <= j < |ev|
    ensures !ev[j - 1].Applied?
  {
    assert StepOk(s, ev, j) && ev[..j][j - 1] == ev[j - 1];
  }

  lemma SafeReview(s: Script, a: ReviewerAnswer, changes: seq<Change>, out: Option<Review>)
    requires ReviewOut(s, a, changes, out) && out.Some? && out.value.taskComplete
    ensures forall x :: x in out.value.issues ==> !Blocks(x)
  {
    if a.ReviewOk? { NormalisedIsSafe(a.raw, ChangedPaths(changes), s.world.safe, out.value); }
  }

  /** The answers leave no choice: two disciplined runs of the same script never diverge. */
  lemma {:induction false} RunDetermined(s: Script, a: seq<Event>, b: seq<Event>)
    requires Disciplined(s, a) && Disciplined(s, b) && |a| <= |b|
    ensures a <= b
  {
    if a != [] {
      var n := |a| - 1;
      Shorter(s, a, n);
      RunDetermined(s, a[..n], b);
      assert StepOk(s, a, n) && StepOk(s, b, n);
      assert a[..n] == b[..n];
      assert a[n] == b[n];
      assert a == a[..n] + [a[n]];
    }
  }

  lemma Shorter(s: Script, ev: seq<Event>, n: nat)
    requires Disciplined(s, ev) && n <= |ev|
    ensures Disciplined(s, ev[..n])
  {
    forall i | 0 <= i < n
      ensures StepOk(s, ev[..n], i)
    {
      assert StepOk(s, ev, i) && ev[..n][..i] == ev[..i];
    }
  }

  /** The run wants to make another agent call; `canFix` tells whether the fixer's budget lasts. */
  ghost predicate WantsCall(s: Script, ev: seq<Event>, canFix: bool) {
    if ev == [] || ev[|ev| - 1].Shifted? then !ToolsFail(s, ev)
    else
      match ev[|ev| - 1]
      case Coded(out) => out.CoderTools? || (out.CoderDone? && Accepted(s, ev, out.changes))
      case Reviewed(_, r) => Continues(r) && !Stagnant(s, ev) && canFix
      case Fixed(fixes) => fixes.Some?
      case Applied(_, _) => false
  }

  /** The task is given up: a failed answer, a rejection, the closed gate, a failed application, a
      failed tool plan, no fix left, or stagnation that a strategy shift has not ended. */
  ghost predicate GivesUp(s: Script, ev: seq<Event>, canFix: bool) {
    if ev == [] || ev[|ev| - 1].Shifted? then ToolsFail(s, ev)
    else
      match ev[|ev| - 1]
      case Coded(out) => out.CoderFailed? || (out.CoderDone? && Shifts(ev) > 0 && !Accepted(s, ev, out.changes))
      case Reviewed(_, r) =>
        if Continues(r) then if Stagnant(s, ev) then Shifts(ev) > 0 else !canFix
        else !(r.Some? && r.value.taskComplete && GateOk(r.value))
      case Fixed(fixes) => fixes.None?
      case Applied(_, ok) => !ok
  }

  /** How a run may end; `canFix` and `canCall` tell what the budgets still allow then. A task is done
      when its changes were applied or the coder had none to make, and only then. */
  ghost predicate Ends(s: Script, ev: seq<Event>, o: TaskOutcome, canFix: bool, canCall: bool) {
    match o
    case TaskRaised => ev == []
    case TaskDone =>
      ev != [] &&
      (if ev[|ev| - 1].Applied? then ev[|ev| - 1].ok else ev[|ev| - 1] == Coded(CoderDone([])) && Shifts(ev) == 0)
    case TaskPaused => WantsCall(s, ev, canFix) && !canCall
    case TaskFailed => GivesUp(s, ev, canFix)
  }

  /** A run that has started ends in one way only. */
  lemma EndsOneWay(s: Script, ev: seq<Event>, o: TaskOutcome, p: TaskOutcome, canFix: bool, canCall: bool)
    requires Ends(s, ev, o, canFix, canCall) && Ends(s, ev, p, canFix, canCall) && !o.TaskRaised? && !p.TaskRaised?
    ensures o == p
  {
  }

  /** A review whose answer cannot be parsed is the last one. For a task that states an acceptance
      criterion the list it was given is applied unreviewed; for any other nothing is, and the task
      fails. */
  lemma MalformedReview(s: Script, ev: seq<Event>, o: TaskOutcome, canFix: bool, canCall: bool, i: nat)
    requires Disciplined(s, ev) && Ends(s, ev, o, canFix, canCall)
    requires i < |ev| && ev[i].Reviewed? && s.world.reviewer(Now(s, ev[..i])) == ReviewError(true)
    ensures s.subtask.criteria != {} <==> i + 2 == |ev| && ev[i + 1].Applied?
    ensures s.subtask.criteria == {} <==> i + 1 == |ev|
    ensures i + 2 == |ev| ==> ev[i + 1].changes == ev[i].changes && o == if ev[i + 1].ok then TaskDone else TaskFailed
    ensures i + 1 == |ev| ==> o == TaskFailed
  {
    FallbackPassesGate(s.subtask.criteria);
    assert StepOk(s, ev, i);
    assert ev[i].review == Some(FallbackReview(s.subtask.criteria));
    if i + 1 < |ev| {
      assert StepOk(s, ev, i + 1) && ev[..i + 1][i] == ev[i];
      assert ev[i + 1].Applied?;
      AppliedLast(s, ev, i + 1);
    }
  }

  /** Which lists may be reviewed, said on the answers: the one the coder proposed without asking for
      tools, its canned changes after a malformed answer, or the one the fixer returned; and after a
      malformed answer of the fixer the very list reviewed before. */
  lemma ReviewedList(s: Script, ev: seq<Event>, i: nat)
    requires Disciplined(s, ev) && i < |ev| && ev[i].Reviewed?
    ensures i > 0 && (ev[i - 1].Coded? || (ev[i - 1].Fixed? && i >= 2 && ev[i - 2].Reviewed?))
    ensures ev[i - 1].Coded? ==>
      match s.world.coder(Now(s, ev[..i - 1]))
      case CoderOk(changes, toolCalls) => toolCalls == [] && ev[i].changes == changes && changes != []
      case CoderError(malformed) => malformed && s.subtask.fallbackChanges == Some(ev[i].changes)
    ensures ev[i - 1].Fixed? ==>
      match s.world.fixer(Now(s, ev[..i - 1]))
      case FixOk(changes) => ev[i].changes == changes
      case FixError(malformed) => malformed && ev[i].changes == ev[i - 2].changes
  {
    assert StepOk(s, ev, i);
    assert i > 0 && ev[..i][i - 1] == ev[i - 1];
    assert StepOk(s, ev, i - 1);
    if ev[i - 1].Fixed? {
      assert i >= 2 && ev[..i - 1][i - 2] == ev[i - 2];
    }
  }

  /** An agent call whose answer leaves nothing to go on with: an error that is not malformed, or one of
      the coder for a task without canned changes. */
  ghost predicate Hopeless(s: Script, ev: seq<Event>, i: nat)
    requires i < |ev|
  {
    var n := Now(s, ev[..i]);
    match ev[i]
    case Coded(_) =>
      s.world.coder(n) == CoderError(false) || (s.world.coder(n).CoderError? && s.subtask.fallbackChanges.None?)
    case Reviewed(_, _) => s.world.reviewer(n) == ReviewError(false)
    case Fixed(_) => s.world.fixer(n) == FixError(false)
    case _ => false
  }

  lemma Follows(s: Script, ev: seq<Event>, i: nat)
    requires Disciplined(s, ev) && i + 1 < |ev|
    ensures Allowed(s, ev[..i + 1], ev[i + 1]) && ev[..i + 1][i] == ev[i]
  {
    assert StepOk(s, ev, i + 1);
  }

  /** It is the last thing that happens: the task fails, and nothing is applied. */
  lemma HopelessFails(s: Script, ev: seq<Event>, o: TaskOutcome, canFix: bool, canCall: bool, i: nat)
    requires Disciplined(s, ev) && Ends(s, ev, o, canFix, canCall) && i < |ev| && Hopeless(s, ev, i)
    ensures i == |ev| - 1 && o == TaskFailed
    ensures forall j :: 0 <= j < |ev| ==> !ev[j].Applied?
  {
    assert StepOk(s, ev, i);
    if i > 0 { assert ev[..i][i - 1] == ev[i - 1]; }
    if i + 1 < |ev| { Follows(s, ev, i); }
    forall j | 0 <= j < |ev|
      ensures !ev[j].Applied?
    {
      if ev[j].Applied? { AppliedLast(s, ev, j); }
    }
  }

  /** A task done without an application had nothing to do: the coder was only asked again after tool
      calls, and its last answer proposed no change, or was malformed with no canned change to fall
      back on. */
  lemma DoneWithoutChanges(s: Script, ev: seq<Event>, canFix: bool, canCall: bool)
    requires Disciplined(s, ev) && Ends(s, ev, TaskDone, canFix, canCall) && !ev[|ev| - 1].Applied?
    ensures s.world.coder(s.at + |ev| - 1) == CoderOk([], []) ||
      (s.world.coder(s.at + |ev| - 1) == CoderError(true) && s.subtask.fallbackChanges == Some([]))
    ensures forall j {:trigger s.world.coder(j)} :: s.at <= j < s.at + |ev| - 1 ==>
      s.world.coder(j).CoderOk? && s.world.coder(j).toolCalls != []
  {
    var n := |ev| - 1;
    CoderCalls(s, ev, n);
    assert StepOk(s, ev, n);
    CallsOnly(ev[..n]);
    forall j: nat | s.at <= j < s.at + n
      ensures s.world.coder(j).CoderOk? && s.world.coder(j).toolCalls != []
    {
      assert StepOk(s, ev, j - s.at);
      CallsOnly(ev[..j - s.at]);
    }
  }

  /** Without a strategy shift a call of the coder comes after calls of the coder only. */
  lemma {:induction false} CoderCalls(s: Script, ev: seq<Event>, n: nat)
    requires Disciplined(s, ev) && n < |ev| && ev[n].Coded? && Shifts(ev) == 0
    ensures forall j :: 0 <= j < n ==> ev[j] == Coded(CoderTools)
  {
    if n > 0 {
      assert StepOk(s, ev, n) && ev[..n][n - 1] == ev[n - 1];
      NoShift(ev, n - 1);
      CoderCalls(s, ev, n - 1);
    }
  }

  lemma NoShift(ev: seq<Event>, j: nat)
    requires j < |ev| && Shifts(ev) == 0
    ensures !ev[j].Shifted?
  {
    var shifts := set i | 0 <= i < |ev| && ev[i].Shifted?;
    assert shifts == {} && (j in shifts <==> ev[j].Shifted?);
  }

  lemma {:induction false} CallsOnly(ev: seq<Event>)
    requires forall j :: 0 <= j < |ev| ==> IsCall(ev[j])
    ensures Calls(ev) == |ev|
  {
    if ev != [] {
      var init := ev[..|ev| - 1];
      CallsOnly(init);
      CallsAppend(init, ev[|ev| - 1]);
      assert ev == init + [ev[|ev| - 1]];
    }
  }

  /** The issue names no path, or a safe one that is the path of one of these changes, if any has one. */
  ghost predicate NamesChange(i: RawIssue, changes: seq<Change>, safe: string -> bool) {
    i.filePath == "" ||
    (safe(i.filePath) &&
     ((forall c :: c in changes ==> c.path == "") || exists c :: c in changes && c.path == i.filePath))
  }

  /** A review whose answer can be read lets the task finish exactly if the answer spells an approval or
      claims completion, and no issue that names one of the changes objects. */
  lemma ReviewedComplete(s: Script, ev: seq<Event>, i: nat, raw: RawReview)
    requires Disciplined(s, ev) && i < |ev| && ev[i].Reviewed? && s.world.reviewer(Now(s, ev[..i])) == ReviewOk(raw)
    ensures ev[i].review.Some?
    ensures ev[i].review.value.taskComplete <==>
      && (Spells(raw.verdict, "approve") || raw.taskComplete == Some(true))
      && forall x :: x in raw.issues && NamesChange(x, ev[i].changes, s.world.safe) ==> !Objects(x)
  {
    assert StepOk(s, ev, i);
    var changed := ChangedPaths(ev[i].changes);
    CompletesSpelled(raw, changed, s.world.safe, ev[i].review.value);
    forall x
      ensures NamesChange(x, ev[i].changes, s.world.safe) <==> Concerns(x, changed, s.world.safe)
    {
      ConcernsNamed(x, ev[i].changes, s.world.safe);
    }
  }

  lemma ConcernsNamed(x: RawIssue, changes: seq<Change>, safe: string -> bool)
    ensures NamesChange(x, changes, safe) <==> Concerns(x, ChangedPaths(changes), safe)
  {
    var changed := ChangedPaths(changes);
    assert changed == {} <==> forall c :: c in changes ==> c.path == "" by {
      assert forall c :: c in changes && c.path != "" ==> c.path in changed;
    }
  }

  /** So an applied list has met no objection to one of its changes, and has every criterion met. */
  lemma AppliedUnopposed(s: Script, ev: seq<Event>, i: nat, raw: RawReview)
    requires Disciplined(s, ev) && i < |ev| && ev[i].Applied?
    requires i > 0 ==> s.world.reviewer(Now(s, ev[..i - 1])) == ReviewOk(raw)
    ensures Spells(raw.verdict, "approve") || raw.taskComplete == Some(true)
    ensures forall x :: x in raw.issues && NamesChange(x, ev[i].changes, s.world.safe) ==> !Objects(x)
    ensures raw.criteriaMet != map[] && forall c :: c in raw.criteriaMet ==> raw.criteriaMet[c]
  {
    AppliedOnce(s, ev, i, i);
    assert StepOk(s, ev, i - 1);
    ReviewedComplete(s, ev, i - 1, raw);
  }
}
