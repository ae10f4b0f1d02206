/**
  The application of an approved change list through the diff engine.
 */
module ChangeApplication {
  import opened Options
  import opened FileGuards
  import opened Hunks
  import opened DiffEngines
  import opened Protocols

  /** The edit surface one cycle may touch. */
  datatype Surface = Surface(maxFiles: int, maxLines: int)

  function AtLeastZero(n: int): nat {
    if n < 0 then 0 else n
  }

  function HunkLines(hunks: seq<Hunk>): nat {
    if hunks == [] then 0
    else
      var o, n := LineCount(hunks[0].originalContent), LineCount(hunks[0].newContent);
      (if o > n then o else n) + HunkLines(hunks[1..])
  }

  /** `_estimate_change_lines`. */
  function EstimateLines(c: Change): nat {
    if c.linesAdded != 0 || c.linesRemoved != 0 then AtLeastZero(c.linesAdded) + AtLeastZero(c.linesRemoved)
    else if c.hunks != [] then HunkLines(c.hunks)
    else LineCount(c.newContent)
  }

  function TotalLines(changes: seq<Change>): nat {
    if changes == [] then 0 else TotalLines(changes[..|changes| - 1]) + EstimateLines(changes[|changes| - 1])
  }

  /** The estimate: stated line counts if there are any, else per hunk the longer side, else the lines of
      the new content; over a list it adds up. */
  lemma {:induction false} SurfaceLines(a: seq<Change>, b: seq<Change>)
    ensures TotalLines(a + b) == TotalLines(a) + TotalLines(b)
  {
    if b == [] {
      assert a + b == a;
    } else {
      SurfaceLines(a, b[..|b| - 1]);
      assert (a + b)[..|a + b| - 1] == a + b[..|b| - 1];
    }
  }

  lemma ChangeLines(c: Change)
    ensures c.linesAdded >= 0 && c.linesRemoved >= 0 && c.linesAdded + c.linesRemoved > 0 ==>
      TotalLines([c]) == c.linesAdded + c.linesRemoved
    ensures c.linesAdded < 0 && c.linesRemoved < 0 ==> TotalLines([c]) == 0
    ensures c.linesAdded == c.linesRemoved == 0 && c.hunks != [] ==>
      TotalLines([c]) == OldLines(c.hunks) + HunkLinesAdded(c.hunks) == NewLines(c.hunks) + HunkLinesRemoved(c.hunks)
    ensures c.linesAdded == c.linesRemoved == 0 && c.hunks == [] ==> TotalLines([c]) == |SplitLines(c.newContent)|
  {
    assert [c][..0] == [];
    LongerSides(c.hunks);
    LinesBalance(c.hunks);
  }

  lemma {:induction false} LongerSides(hunks: seq<Hunk>)
    ensures HunkLines(hunks) == OldLines(hunks) + HunkLinesAdded(hunks)
  {
    if hunks != [] { LongerSides(hunks[1..]); }
  }

  predicate WithinSurface(changes: seq<Change>, limits: Surface) {
    |set c | c in changes :: c.path| <= limits.maxFiles && TotalLines(changes) <= limits.maxLines
  }

  /** The diff a change stands for in this state; there is none for the deletion of a missing file and
      for hunks that cannot be read. */
  function DiffOf(files: Files, c: Change, hash: string -> Hash): Option<FileDiff> {
    if c.changeType == "delete" then if c.path in files then Some(RemovalOf(files, c.path, hash)) else None
    else if c.hunks != [] then if c.readable then Some(HunkDiff(c)) else None
    else Some(EditOf(files, c.path, c.newContent, hash))
  }

  function HunkDiff(c: Change): FileDiff {
    FileDiff(c.path, if c.changeType == "create" then Add else Modify, None, c.hunks, None)
  }

  /** The change can be applied: there is a diff, and the validation accepts it. */
  predicate Applicable(files: Files, c: Change, hash: string -> Hash) {
    var d := DiffOf(files, c, hash);
    d.Some? && Passes(files, d.value, hash)
  }

  function AfterChange(files: Files, c: Change, hash: string -> Hash): Files {
    var d := DiffOf(files, c, hash);
    if d.Some? then AfterDiff(files, d.value) else files
  }

  /** When a change can be applied: a deletion to a file that is there; hunks that can be read and keep the
      limits, to a file that is there or is to be created; and new content within the limits. */
  lemma ApplicableExact(files: Files, c: Change, hash: string -> Hash)
    ensures c.changeType == "delete" ==> (Applicable(files, c, hash) <==> c.path in files)
    ensures c.changeType != "delete" && c.hunks != [] ==>
      (Applicable(files, c, hash) <==>
        c.readable && (c.changeType == "create" || c.path in files) && WithinLimits(HunkDiff(c)))
    ensures c.changeType != "delete" && c.hunks == [] ==>
      (Applicable(files, c, hash) <==> WithinLimits(EditOf(files, c.path, c.newContent, hash)))
  {
  }

  /** What the change makes of the content of its path. */
  function Revised(content: Option<string>, c: Change): Option<string> {
    if c.changeType == "delete" then None
    else if c.hunks == [] then Some(c.newContent)
    else Some(Patched(if content.Some? then content.value else "", c.hunks))
  }

  function ContentOf(files: Files, p: Path): Option<string> {
    if p in files then Some(files[p]) else None
  }

  /** The content of one path after the changes to it, whatever the other changes do. */
  function RevisedBy(content: Option<string>, changes: seq<Change>, p: Path): Option<string> {
    if changes == [] then content
    else
      var before, c := RevisedBy(content, changes[..|changes| - 1], p), changes[|changes| - 1];
      if c.path == p then Revised(before, c) else before
  }

  lemma ChangeContent(files: Files, c: Change, hash: string -> Hash, p: Path)
    requires Applicable(files, c, hash)
    ensures ContentOf(AfterChange(files, c, hash), p) ==
      if p == c.path then Revised(ContentOf(files, p), c) else ContentOf(files, p)
  {
  }

  /** Applied one after the other, the changes give every path its content in terms of their own. */
  lemma {:induction false} AppliedContent(files: Files, changes: seq<Change>, n: nat, hash: string -> Hash, p: Path)
    requires n <= |changes| && forall k {:trigger ApplicableAt(files, changes, k, hash)} ::
      0 <= k < n ==> ApplicableAt(files, changes, k, hash)
    ensures ContentOf(AfterChanges(files, changes[..n], hash), p) == RevisedBy(ContentOf(files, p), changes[..n], p)
  {
    if n > 0 {
      AppliedContent(files, changes, n - 1, hash, p);
      assert changes[..n][..n - 1] == changes[..n - 1];
      assert ApplicableAt(files, changes, n - 1, hash);
      ChangeContent(AfterChanges(files, changes[..n - 1], hash), changes[n - 1], hash, p);
    }
  }

  /** A path whose last change sets new content ends with exactly that. */
  lemma {:induction false} LastContentWins(content: Option<string>, changes: seq<Change>, k: nat, p: Path)
    requires k < |changes| && changes[k].path == p && forall j :: k < j < |changes| ==> changes[j].path != p
    requires changes[k].changeType != "delete" && changes[k].hunks == []
    ensures RevisedBy(content, changes, p) == Some(changes[k].newContent)
  {
    var n := |changes| - 1;
    if k < n {
      assert changes[n].path != p;
      LastContentWins(content, changes[..n], k, p);
    }
  }

  /** The files after all of these changes. */
  function AfterChanges(files: Files, changes: seq<Change>, hash: string -> Hash): Files {
    if changes == [] then files
    else AfterChange(AfterChanges(files, changes[..|changes| - 1], hash), changes[|changes| - 1], hash)
  }

  /** No change creates, by hunks, a file that is already there in the state it meets. */
  ghost predicate NothingOvercreated(files: Files, changes: seq<Change>, hash: string -> Hash) {
    changes != [] ==>
      var before, c := changes[..|changes| - 1], changes[|changes| - 1];
      NothingOvercreated(files, before, hash) &&
      !Overcreates(AfterChanges(files, before, hash), c)
  }

  /** Exactly these changes can undo themselves: applied, a change by hunks that creates a file which is
      there already loses its content, and no other change loses anything. */
  lemma ChangeRestorable(files: Files, c: Change, hash: string -> Hash)
    requires Applicable(files, c, hash)
    ensures Restorable(files, DiffOf(files, c, hash).value, true) <==>
      !Overcreates(files, c)
  {
  }

  /** Change `k` can be applied once the ones before it have been. */
  ghost predicate ApplicableAt(files: Files, changes: seq<Change>, k: nat, hash: string -> Hash)
    requires k < |changes|
  {
    Applicable(AfterChanges(files, changes[..k], hash), changes[k], hash)
  }

  /** The first `n` changes have been applied, and nothing else has happened. */
  ghost predicate Progress(files: Files, goal: Option<Files>, changes: seq<Change>, n: nat, hash: string -> Hash,
                           now: Files, stack: seq<Entry>) {
    && n <= |changes| && now == AfterChanges(files, changes[..n], hash)
    && (forall k {:trigger ApplicableAt(files, changes, k, hash)} :: 0 <= k < n ==>
          ApplicableAt(files, changes, k, hash))
    && (NothingOvercreated(files, changes[..n], hash) ==> UndoAll(now, stack) == goal)
  }

  /** `c` creates, by hunks, a file that is already there. */
  predicate Overcreates(files: Files, c: Change) {
    c.changeType == "create" && c.hunks != [] && c.path in files
  }

  lemma ProgressNext(files: Files, goal: Option<Files>, changes: seq<Change>, n: nat, hash: string -> Hash,
                     now: Files, stack: seq<Entry>, next: Files, stack2: seq<Entry>)
    requires Progress(files, goal, changes, n, hash, now, stack) && n < |changes|
    requires Applicable(now, changes[n], hash) && next == AfterChange(now, changes[n], hash)
    requires !Overcreates(now, changes[n]) ==> UndoAll(next, stack2) == UndoAll(now, stack)
    ensures Progress(files, goal, changes, n + 1, hash, next, stack2)
  {
    assert changes[..n + 1][..n] == changes[..n];
    assert ApplicableAt(files, changes, n, hash);
  }

  /** One step of `_apply_changes`. */
  method ApplyOne(engine: DiffEngine, c: Change) returns (ok: bool)
    modifies engine`applied, engine.guard`ops, engine.guard`files, engine.guard`backups
    ensures engine.guard.ops >= old(engine.guard.ops)
    ensures ok ==> Applicable(old(engine.guard.files), c, engine.hash)
    ensures engine.guard.Smooth(old(engine.guard.ops)) ==> (ok <==> Applicable(old(engine.guard.files), c, engine.hash))
    ensures engine.guard.files ==
      if ok then AfterChange(old(engine.guard.files), c, engine.hash) else old(engine.guard.files)
    ensures ok && !Overcreates(old(engine.guard.files), c) ==>
      UndoAll(engine.guard.files, engine.applied) == old(UndoAll(engine.guard.files, engine.applied))
    ensures !ok ==> engine.applied == old(engine.applied)
  {
    ghost var files, stack := engine.guard.files, engine.applied;
    var d: Option<FileDiff>;
    if c.changeType == "delete" {
      d := engine.CreateDeletionDiff(c.path);
    } else if c.hunks != [] {
      d := if c.readable then Some(HunkDiff(c)) else None;
    } else {
      d := engine.CreateDiff(c.path, c.newContent);
    }
    if d.None? { return false; }
    assert d == DiffOf(files, c, engine.hash);
    assert UndoAll(engine.guard.files, engine.applied) == UndoAll(files, stack);
    var r := engine.Apply(d.value);
    ok := r == ApplyResult.Applied;
    if ok { ChangeRestorable(files, c, engine.hash); }
  }

  /** `_apply_changes`: over the surface limits nothing happens; otherwise exactly the first `n` changes
      are applied and stay applied, all of them on success. With nothing refused it fails exactly if
      some change cannot be applied in the state it meets. `rollback_all` then leads where it led
      before, unless a file was created over. */
  method ApplyChanges(engine: DiffEngine, changes: seq<Change>, limits: Surface) returns (ok: bool, ghost n: nat)
    modifies engine`applied, engine.guard`ops, engine.guard`files, engine.guard`backups
    ensures Progress(old(engine.guard.files), old(UndoAll(engine.guard.files, engine.applied)), changes, n, engine.hash,
                     engine.guard.files, engine.applied)
    ensures !WithinSurface(changes, limits) ==> !ok && n == 0
    ensures WithinSurface(changes, limits) ==> (ok <==> n == |changes|)
    ensures engine.guard.Smooth(old(engine.guard.ops)) && WithinSurface(changes, limits) && !ok ==>
      !ApplicableAt(old(engine.guard.files), changes, n, engine.hash)
    ensures engine.guard.ops >= old(engine.guard.ops)
  {
    ghost var files, start, goal := engine.guard.files, engine.guard.ops, UndoAll(engine.guard.files, engine.applied);
    n := 0;
    assert changes[..0] == [];
    if |set c | c in changes :: c.path| > limits.maxFiles { return false, 0; }
    var lines := CountLines(changes);
    if lines > limits.maxLines { return false, 0; }
    for k := 0 to |changes|
      invariant n == k && engine.guard.ops >= start
      invariant Progress(files, goal, changes, n, engine.hash, engine.guard.files, engine.applied)
    {
      ghost var now, stack := engine.guard.files, engine.applied;
      ok := ApplyOne(engine, changes[k]);
      if !ok { return; }
      ProgressNext(files, goal, changes, n, engine.hash, now, stack, engine.guard.files, engine.applied);
      n := k + 1;
    }
    ok := true;
  }

  method CountLines(changes: seq<Change>) returns (lines: nat)
    ensures lines == TotalLines(changes)
  {
    lines := 0;
    for k := 0 to |changes|
      invariant lines == TotalLines(changes[..k])
    {
      assert changes[..k + 1][..k] == changes[..k];
      lines := lines + EstimateLines(changes[k]);
    }
    assert changes[..|changes|] == changes;
  }

  /** An applied list and `rollback_all`: whether or not the list went through, the files are what they
      were, if nothing was created over and no undoing was refused. */
  method ApplyThenRollback(engine: DiffEngine, changes: seq<Change>, limits: Surface)
    returns (ok: bool, ghost n: nat, ghost undoAt: nat)
    requires engine.applied == []
    modifies engine`applied, engine.guard`ops, engine.guard`files, engine.guard`backups
    ensures n <= |changes| && (WithinSurface(changes, limits) ==> (ok <==> n == |changes|)) &&
      undoAt <= engine.guard.ops
    ensures engine.guard.Smooth(undoAt) && NothingOvercreated(old(engine.guard.files), changes[..n], engine.hash) ==>
      engine.guard.files == old(engine.guard.files) && engine.applied == []
  {
    ok, n := ApplyChanges(engine, changes, limits);
    undoAt := engine.guard.ops;
    var count := engine.RollbackAll();
  }
}
