/**
  The reviewer's normalisation of a parsed response, and the executor's verification gate on
  the normalised review.
 */
module Reviewers {
  import opened Options

  datatype Verdict = Approve | RequestChanges | Reject

  /** One issue as the model wrote it, and as the reviewer keeps it. */
  datatype RawIssue = RawIssue(severity: string, filePath: string, blocking: Option<bool>)
  datatype Issue = Issue(severity: string, filePath: string, blocking: bool)

  datatype RawReview = RawReview(
    verdict: string, taskComplete: Option<bool>, issues: seq<RawIssue>,
    criteriaMet: map<string, bool>, riskScore: Option<real>)

  datatype Review = Review(
    verdict: Verdict, taskComplete: bool, issues: seq<Issue>,
    criteriaMet: map<string, bool>, riskScore: real)

  function Lower(s: string): string {
    seq(|s|, i requires 0 <= i < |s| => if 'A' <= s[i] <= 'Z' then s[i] - 'A' + 'a' else s[i])
  }

  function Upper(s: string): string {
    seq(|s|, i requires 0 <= i < |s| => if 'a' <= s[i] <= 'z' then s[i] - 'a' + 'A' else s[i])
  }

  predicate Severe(severity: string) {
    Lower(severity) in {"critical", "major"}
  }

  predicate Minor(severity: string) {
    Lower(severity) in {"minor", "suggestion"}
  }

  /** The letter `c` between `a` and `z`, as it is or as the capital 32 code points below it. */
  predicate EitherCase(c: char, letter: char) {
    c == letter || c as int + 32 == letter as int
  }

  /** The string spells the word, every letter in either case. */
  predicate Spells(s: string, word: string) {
    |s| == |word| && forall i :: 0 <= i < |word| ==> EitherCase(s[i], word[i])
  }

  predicate Word(s: string) {
    forall i :: 0 <= i < |s| ==> 'a' <= s[i] <= 'z'
  }

  lemma LowerSpells(s: string, word: string)
    requires Word(word)
    ensures Lower(s) == word <==> Spells(s, word)
  {
    if Lower(s) == word {
      forall i | 0 <= i < |s|
        ensures EitherCase(s[i], word[i])
      {
        assert Lower(s)[i] == word[i];
      }
    }
  }

  lemma UpperSpells(s: string, word: string)
    requires Word(word)
    ensures Upper(s) == Upper(word) <==> Spells(s, word)
  {
    if Upper(s) == Upper(word) {
      assert |Upper(s)| == |s| == |word|;
      forall i | 0 <= i < |s|
        ensures EitherCase(s[i], word[i])
      {
        assert Upper(s)[i] == Upper(word)[i];
      }
    }
  }

  /** The severe and the minor severities, letter by letter. */
  lemma SeveritySpelled(s: string)
    ensures Severe(s) <==> Spells(s, "critical") || Spells(s, "major")
    ensures Minor(s) <==> Spells(s, "minor") || Spells(s, "suggestion")
  {
    LowerSpells(s, "critical");
    LowerSpells(s, "major");
    LowerSpells(s, "minor");
    LowerSpells(s, "suggestion");
  }

  /** Two words are verdicts; every other string asks for changes. */
  lemma VerdictSpelled(s: string)
    ensures ReadVerdict(s) == Approve <==> Spells(s, "approve")
    ensures ReadVerdict(s) == Reject <==> Spells(s, "reject")
  {
    assert Upper("approve") == "APPROVE" && Upper("reject") == "REJECT";
    UpperSpells(s, "approve");
    UpperSpells(s, "reject");
  }

  /** The verdict string, with anything unknown read as a request for changes. */
  function ReadVerdict(s: string): Verdict {
    if Upper(s) == "APPROVE" then Approve
    else if Upper(s) == "REJECT" then Reject
    else RequestChanges
  }

  /** An issue survives unless it names an unsafe path or one outside the reviewed changes. */
  predicate Kept(i: RawIssue, changed: set<string>, safe: string -> bool) {
    i.filePath == "" || (safe(i.filePath) && (changed == {} || i.filePath in changed))
  }

  function Keep(i: RawIssue): Issue {
    Issue(i.severity, i.filePath, if i.blocking.Some? then i.blocking.value else Severe(i.severity))
  }

  function KeptIssues(issues: seq<RawIssue>, changed: set<string>, safe: string -> bool): seq<Issue> {
    if issues == [] then []
    else
      var last := issues[|issues| - 1];
      KeptIssues(issues[..|issues| - 1], changed, safe) + if Kept(last, changed, safe) then [Keep(last)] else []
  }

  predicate Blocks(i: Issue) {
    Severe(i.severity) || i.blocking
  }

  function CountSevere(issues: seq<Issue>): nat {
    if issues == [] then 0
    else CountSevere(issues[..|issues| - 1]) + if Severe(issues[|issues| - 1].severity) then 1 else 0
  }

  function CountMinor(issues: seq<Issue>): nat {
    if issues == [] then 0
    else CountMinor(issues[..|issues| - 1]) + if Minor(issues[|issues| - 1].severity) then 1 else 0
  }

  function CountMet(criteria: map<string, bool>): nat {
    |set c | c in criteria && criteria[c]|
  }

  function Clamp(x: real): real {
    if x < 0.0 then 0.0 else if x > 1.0 then 1.0 else x
  }

  /** `round(x, 4)`. */
  function Round4(x: real): real {
    (x * 10000.0 + 0.5).Floor as real / 10000.0
  }

  /** The risk derived when the response gives none. */
  function DefaultRisk(issues: seq<Issue>, criteria: map<string, bool>): real {
    var total := if |criteria| == 0 then 1 else |criteria|;
    var ratio := CountMet(criteria) as real / total as real;
    Clamp(0.15 + 0.22 * CountSevere(issues) as real + 0.08 * CountMinor(issues) as real + 0.22 * (1.0 - ratio))
  }

  function RiskScore(given: Option<real>, issues: seq<Issue>, criteria: map<string, bool>): real {
    Round4(if given.Some? then Clamp(given.value) else DefaultRisk(issues, criteria))
  }

  /** What the normalised review is to be, said without the order of the overrides. */
  ghost predicate Normalised(raw: RawReview, changed: set<string>, safe: string -> bool, r: Review) {
    var blocked := exists i :: i in r.issues && Blocks(i);
    && r.issues == KeptIssues(raw.issues, changed, safe)
    && r.criteriaMet == raw.criteriaMet
    && r.riskScore == RiskScore(raw.riskScore, r.issues, raw.criteriaMet)
    && (r.taskComplete <==> !blocked && (ReadVerdict(raw.verdict) == Approve || raw.taskComplete == Some(true)))
    && r.verdict == if blocked && ReadVerdict(raw.verdict) == Approve then RequestChanges else ReadVerdict(raw.verdict)
  }

  /** `_parse_response` after the JSON has been validated. */
  method ParseResponse(raw: RawReview, changed: set<string>, safe: string -> bool) returns (r: Review)
    ensures Normalised(raw, changed, safe, r)
  {
    var verdict := ReadVerdict(raw.verdict);
    var taskComplete := if raw.taskComplete.Some? then raw.taskComplete.value else verdict == Approve;
    var issues: seq<Issue> := [];
    for k := 0 to |raw.issues|
      invariant issues == KeptIssues(raw.issues[..k], changed, safe)
    {
      assert raw.issues[..k + 1][..k] == raw.issues[..k];
      if Kept(raw.issues[k], changed, safe) {
        issues := issues + [Keep(raw.issues[k])];
      }
    }
    assert raw.issues[..|raw.issues|] == raw.issues;
    if verdict == Approve {
      taskComplete := true;
    }
    if exists i :: i in issues && Severe(i.severity) {
      taskComplete := false;
      if verdict == Approve { verdict := RequestChanges; }
    }
    if exists i :: i in issues && i.blocking {
      taskComplete := false;
      if verdict == Approve { verdict := RequestChanges; }
    }
    r := Review(verdict, taskComplete, issues, raw.criteriaMet,
                RiskScore(raw.riskScore, issues, raw.criteriaMet));
  }

  /** `_verification_gate`. */
  predicate GateOk(r: Review) {
    var noErrors := !exists i :: i in r.issues && Severe(i.severity);
    var testsPassed := r.criteriaMet != map[] && forall c :: c in r.criteriaMet ==> r.criteriaMet[c];
    var riskRecorded := exists i :: i in r.issues && Minor(i.severity);
    noErrors && testsPassed && (riskRecorded || r.issues == []) && r.riskScore <= 0.65
  }

  /** The deterministic review used when the response cannot be parsed. */
  function FallbackReview(criteria: set<string>): Review {
    Review(Approve, true, [], map c | c in criteria :: true, 0.5)
  }

  /** A review that lets a task finish carries no severe and no blocking issue, and an approval
      always lets the task finish. */
  lemma NormalisedIsSafe(raw: RawReview, changed: set<string>, safe: string -> bool, r: Review)
    requires Normalised(raw, changed, safe, r)
    ensures r.taskComplete ==> forall i :: i in r.issues ==> !Blocks(i)
    ensures r.verdict == Approve ==> r.taskComplete
  {
  }

  lemma {:induction false} NoSevereCount(issues: seq<Issue>)
    requires forall i :: i in issues ==> !Severe(i.severity)
    ensures CountSevere(issues) == 0
  {
    if issues != [] { NoSevereCount(issues[..|issues| - 1]); }
  }

  lemma {:induction false} MinorCount(issues: seq<Issue>)
    ensures CountMinor(issues) > 0 <==> exists i :: i in issues && Minor(i.severity)
  {
    if issues != [] {
      assert issues == issues[..|issues| - 1] + [issues[|issues| - 1]];
      MinorCount(issues[..|issues| - 1]);
    }
  }

  /** Rounding keeps a multiple of one ten-thousandth. */
  lemma RoundExact(k: int)
    ensures Round4(k as real / 10000.0) == k as real / 10000.0
  {
    assert k as real / 10000.0 * 10000.0 + 0.5 == k as real + 0.5;
    assert (k as real + 0.5).Floor == k;
  }

  lemma RiskThreshold(m: nat)
    ensures Round4(Clamp(0.15 + 0.08 * m as real)) <= 0.65 <==> m <= 6
  {
    var k := 1500 + 800 * m;
    assert 0.15 + 0.08 * m as real == k as real / 10000.0;
    RoundExact(k);
    RoundExact(10000);
    assert m > 6 ==> m >= 7;
  }

  lemma CountPair(a: Issue, b: Issue)
    ensures CountSevere([a, b]) == (if Severe(a.severity) then 1 else 0) + if Severe(b.severity) then 1 else 0
    ensures CountMinor([a, b]) == (if Minor(a.severity) then 1 else 0) + if Minor(b.severity) then 1 else 0
  {
    assert [a, b][..1] == [a] && [a][..0] == [];
    assert CountSevere([a]) == if Severe(a.severity) then 1 else 0;
    assert CountMinor([a]) == if Minor(a.severity) then 1 else 0;
  }

  /** What one severe issue, one minor issue and one criterion that is not met come to. */
  lemma RiskOfOneEach(issues: seq<Issue>, criteria: map<string, bool>)
    requires issues == [Issue("Major", "", false), Issue("minor", "", false)] && criteria == map["works" := false]
    ensures RiskScore(None, issues, criteria) == 0.67
  {
    SeveritySpelled("Major");
    SeveritySpelled("minor");
    assert !EitherCase("Major"[1], "minor"[1]) && !EitherCase("minor"[1], "major"[1]);
    assert Severe("Major") && !Minor("Major") && Minor("minor") && !Severe("minor");
    CountPair(issues[0], issues[1]);
    NothingMet(issues, criteria);
    RoundExact(6700);
  }

  lemma NothingMet(issues: seq<Issue>, criteria: map<string, bool>)
    requires CountSevere(issues) == 1 && CountMinor(issues) == 1 && criteria == map["works" := false]
    ensures DefaultRisk(issues, criteria) == 6700 as real / 10000.0
  {
    assert CountMet(criteria) == 0;
  }

  /** With every criterion met and nothing severe, the derived risk depends on minor issues only. */
  lemma DefaultRiskAllMet(issues: seq<Issue>, criteria: map<string, bool>)
    requires criteria != map[] && (forall c :: c in criteria ==> criteria[c]) && CountSevere(issues) == 0
    ensures DefaultRisk(issues, criteria) == Clamp(0.15 + 0.08 * CountMinor(issues) as real)
  {
    assert (set c | c in criteria && criteria[c]) == criteria.Keys;
    var n := |criteria|;
    assert CountMet(criteria) == n > 0;
    assert n as real / n as real == 1.0;
  }

  /** For a completing review without a stated risk, the gate comes down to three countable
      conditions: every criterion met (and at least one given), a minor issue recorded unless
      there are none at all, and at most six of them. */
  lemma GateWithoutStatedRisk(raw: RawReview, changed: set<string>, safe: string -> bool, r: Review)
    requires Normalised(raw, changed, safe, r) && r.taskComplete && raw.riskScore == None
    ensures GateOk(r) <==>
            && raw.criteriaMet != map[] && (forall c :: c in raw.criteriaMet ==> raw.criteriaMet[c])
            && (r.issues == [] || CountMinor(r.issues) > 0)
            && CountMinor(r.issues) <= 6
  {
    NormalisedIsSafe(raw, changed, safe, r);
    NoSevereCount(r.issues);
    MinorCount(r.issues);
    if raw.criteriaMet != map[] && forall c :: c in raw.criteriaMet ==> raw.criteriaMet[c] {
      DefaultRiskAllMet(r.issues, raw.criteriaMet);
      RiskThreshold(CountMinor(r.issues));
    }
  }

  /** An unparsable response passes the gate like an approval, for every task that states at
      least one acceptance criterion. */
  lemma FallbackPassesGate(criteria: set<string>)
    ensures GateOk(FallbackReview(criteria)) <==> criteria != {}
    ensures FallbackReview(criteria).taskComplete && FallbackReview(criteria).verdict == Approve
    ensures FallbackReview(criteria).issues == [] && FallbackReview(criteria).riskScore == 0.5
  {
    var r := FallbackReview(criteria);
    assert r.criteriaMet.Keys == criteria;
  }

  /** The kept issues are the raw ones that are neither unsafe nor foreign, each as it is kept. */
  lemma {:induction false} KeptExactly(issues: seq<RawIssue>, changed: set<string>, safe: string -> bool, x: Issue)
    ensures x in KeptIssues(issues, changed, safe) <==>
      exists i :: i in issues && Kept(i, changed, safe) && Keep(i) == x
  {
    if issues != [] {
      var init, last := issues[..|issues| - 1], issues[|issues| - 1];
      assert issues == init + [last];
      KeptExactly(init, changed, safe, x);
      assert forall i :: i in issues <==> i in init || i == last;
    }
  }

  /** Every raw issue that would block completion is dropped. */
  ghost predicate BlockersDropped(raw: RawReview, changed: set<string>, safe: string -> bool) {
    forall i {:trigger i in raw.issues} :: i in raw.issues && Blocks(Keep(i)) ==> !Kept(i, changed, safe)
  }

  lemma NothingBlocks(raw: RawReview, changed: set<string>, safe: string -> bool)
    ensures BlockersDropped(raw, changed, safe) <==>
      forall x :: x in KeptIssues(raw.issues, changed, safe) ==> !Blocks(x)
  {
    forall i | i in raw.issues && Kept(i, changed, safe)
      ensures Keep(i) in KeptIssues(raw.issues, changed, safe)
    {
      KeptExactly(raw.issues, changed, safe, Keep(i));
    }
    forall x | x in KeptIssues(raw.issues, changed, safe)
      ensures exists i :: i in raw.issues && Kept(i, changed, safe) && Keep(i) == x
    {
      KeptExactly(raw.issues, changed, safe, x);
    }
  }

  /** A severe or blocking issue stops completion only if it survives: the task is complete exactly if
      it was approved or claimed complete and every issue that would stop it names an unsafe path or
      one outside the reviewed changes. */
  lemma CompletesExactly(raw: RawReview, changed: set<string>, safe: string -> bool, r: Review)
    requires Normalised(raw, changed, safe, r)
    ensures r.taskComplete <==>
      && (ReadVerdict(raw.verdict) == Approve || raw.taskComplete == Some(true))
      && BlockersDropped(raw, changed, safe)
  {
    NothingBlocks(raw, changed, safe);
  }

  /** The issue names no path, or a safe one within the reviewed changes. */
  ghost predicate Concerns(i: RawIssue, changed: set<string>, safe: string -> bool) {
    i.filePath == "" || (safe(i.filePath) && (changed == {} || i.filePath in changed))
  }

  /** It spells a severe severity, or is marked as blocking. */
  predicate Objects(i: RawIssue) {
    Spells(i.severity, "critical") || Spells(i.severity, "major") || i.blocking == Some(true)
  }

  /** An issue is kept with its severity and path; it blocks as it says, and if it does not say, by its
      severity. */
  lemma KeepSpelled(i: RawIssue)
    ensures Keep(i).severity == i.severity && Keep(i).filePath == i.filePath
    ensures Keep(i).blocking <==>
      i.blocking == Some(true) ||
      (i.blocking == None && (Spells(i.severity, "critical") || Spells(i.severity, "major")))
  {
    SeveritySpelled(i.severity);
  }

  /** Said on the strings of the response: the task is complete exactly if it is approved or claimed
      complete and no issue that concerns the changes objects; and one that does undoes an approval. */
  lemma CompletesSpelled(raw: RawReview, changed: set<string>, safe: string -> bool, r: Review)
    requires Normalised(raw, changed, safe, r)
    ensures r.taskComplete <==>
      && (Spells(raw.verdict, "approve") || raw.taskComplete == Some(true))
      && forall i :: i in raw.issues && Concerns(i, changed, safe) ==> !Objects(i)
    ensures r.verdict == Approve <==>
      Spells(raw.verdict, "approve") && forall i :: i in raw.issues && Concerns(i, changed, safe) ==> !Objects(i)
    ensures r.verdict == Reject <==> Spells(raw.verdict, "reject")
  {
    VerdictSpelled(raw.verdict);
    CompletesExactly(raw, changed, safe, r);
    forall i | i in raw.issues
      ensures Blocks(Keep(i)) <==> Objects(i)
    {
      SeveritySpelled(i.severity);
    }
  }

  /** What the gate asks, on the raw review: every criterion met and at least one given, a minor issue
      kept unless none is kept at all, and the stated or derived risk within bounds. */
  ghost predicate RawGate(raw: RawReview, changed: set<string>, safe: string -> bool) {
    var kept := KeptIssues(raw.issues, changed, safe);
    && raw.criteriaMet != map[] && (forall c :: c in raw.criteriaMet ==> raw.criteriaMet[c])
    && (kept == [] || exists i :: i in raw.issues && Kept(i, changed, safe) && Minor(i.severity))
    && RiskScore(raw.riskScore, kept, raw.criteriaMet) <= 0.65
  }

  /** A stated risk passes up to where it rounds to more than 0.65. */
  lemma StatedRisk(x: real, issues: seq<Issue>, criteria: map<string, bool>)
    ensures RiskScore(Some(x), issues, criteria) <= 0.65 <==> x < 0.65005
    ensures 0.0 <= RiskScore(Some(x), issues, criteria) <= 1.0
  {
    var y := Clamp(x);
    var k := (y * 10000.0 + 0.5).Floor;
    assert k as real <= y * 10000.0 + 0.5 < k as real + 1.0;
    assert k <= 6500 <==> y < 0.65005;
    assert k as real / 10000.0 <= 0.65 <==> k <= 6500;
  }

  predicate SpellsMinor(i: Issue) {
    Spells(i.severity, "minor") || Spells(i.severity, "suggestion")
  }

  /** The minor issues are counted one by one. */
  lemma {:induction false} MinorCountExact(issues: seq<Issue>)
    ensures CountMinor(issues) == |set k | 0 <= k < |issues| && SpellsMinor(issues[k])|
  {
    if issues != [] {
      var init, n := issues[..|issues| - 1], |issues| - 1;
      MinorCountExact(init);
      SeveritySpelled(issues[n].severity);
      LastMinor(issues);
    }
  }

  lemma LastMinor(issues: seq<Issue>)
    requires issues != []
    ensures var n := |issues| - 1;
      |set k | 0 <= k < |issues| && SpellsMinor(issues[k])| ==
        |set k | 0 <= k < n && SpellsMinor(issues[..n][k])| + if SpellsMinor(issues[n]) then 1 else 0
  {
    var n := |issues| - 1;
    var before := set k | 0 <= k < n && SpellsMinor(issues[..n][k]);
    assert n !in before;
    assert (set k | 0 <= k < |issues| && SpellsMinor(issues[k])) ==
      before + if SpellsMinor(issues[n]) then {n} else {};
  }

  /** For a completing review the gate is that on the raw review; the verdict has no part in it. */
  lemma GateOnRaw(raw: RawReview, changed: set<string>, safe: string -> bool, r: Review)
    requires Normalised(raw, changed, safe, r) && r.taskComplete
    ensures GateOk(r) <==> RawGate(raw, changed, safe)
  {
    NormalisedIsSafe(raw, changed, safe, r);
    assert forall i :: i in r.issues && Severe(i.severity) ==> Blocks(i);
    forall x | x in r.issues
      ensures exists i :: i in raw.issues && Kept(i, changed, safe) && Keep(i) == x
    {
      KeptExactly(raw.issues, changed, safe, x);
    }
    forall i | i in raw.issues && Kept(i, changed, safe)
      ensures Keep(i) in r.issues
    {
      KeptExactly(raw.issues, changed, safe, Keep(i));
    }
  }

  /** A rejection stays a rejection; its changes are applied all the same exactly if it claims
      completion, every issue that would stop it is dropped, and the gate's conditions hold. */
  lemma RejectionApplied(raw: RawReview, changed: set<string>, safe: string -> bool, r: Review)
    requires Normalised(raw, changed, safe, r) && ReadVerdict(raw.verdict) == Reject
    ensures r.verdict == Reject
    ensures r.taskComplete && GateOk(r) <==>
      raw.taskComplete == Some(true) && BlockersDropped(raw, changed, safe) && RawGate(raw, changed, safe)
  {
    CompletesExactly(raw, changed, safe, r);
    if r.taskComplete { GateOnRaw(raw, changed, safe, r); }
  }

  /** Such a rejection exists. */
  lemma RejectedYetComplete(raw: RawReview, r: Review)
    requires raw == RawReview("reject", Some(true), [], map["works" := true], Some(0.0))
    requires Normalised(raw, {}, _ => true, r)
    ensures r.verdict == Reject && r.taskComplete && GateOk(r)
  {
    assert Upper("reject") == "REJECT";
    RoundExact(0);
    assert 0 as real / 10000.0 == 0.0;
    assert "works" in raw.criteriaMet;
    assert raw.issues[..0] == [];
  }

  /** So does an approval that stands against a critical issue, on a file outside the reviewed changes. */
  lemma ForeignIssueDropped(raw: RawReview, r: Review)
    requires raw == RawReview("APPROVE", None, [RawIssue("critical", "b.py", Some(true))], map["works" := true], None)
    requires Normalised(raw, {"a.py"}, _ => true, r)
    ensures r.issues == [] && r.verdict == Approve && r.taskComplete && GateOk(r)
  {
    assert "b.py"[0] != "a.py"[0];
    OnlyDropped(raw.issues[0], {"a.py"}, _ => true);
    VerdictSpelled(raw.verdict);
    GateWithoutStatedRisk(raw, {"a.py"}, _ => true, r);
  }

  lemma OnlyDropped(i: RawIssue, changed: set<string>, safe: string -> bool)
    requires !Kept(i, changed, safe)
    ensures KeptIssues([i], changed, safe) == []
  {
    assert [i][..0] == [];
  }
}
