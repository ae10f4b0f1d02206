/**
  Reversible edits: diffs against the file guard's map, the stack of applied diffs and its undoing.
 */
module DiffEngines {
  import opened Options
  import opened FileGuards
  import opened Hunks

  datatype DiffType = Add | Delete | Modify | Replace

  type Hash = int

  datatype FileDiff = FileDiff(
    path: Path, kind: DiffType, originalHash: Option<Hash>, hunks: seq<Hunk>, fullNewContent: Option<string>)

  /** An applied diff with the content that undoing it writes back. */
  datatype Entry = Entry(diff: FileDiff, original: string)

  /** A failed result, and an exception raised by the validation. */
  datatype ApplyResult = Applied | Failed | Rejected

  const MAX_HUNKS_PER_FILE := 50
  const MAX_LINES_PER_HUNK := 500
  const MAX_TOTAL_LINES_CHANGED := 1000

  function LineCount(s: string): nat {
    |SplitLines(s)|
  }

  /** Lines that the hunks add, over those hunks that add any. */
  function HunkLinesAdded(hunks: seq<Hunk>): int {
    if hunks == [] then 0
    else
      var d := LineCount(hunks[0].newContent) - LineCount(hunks[0].originalContent);
      (if d > 0 then d else 0) + HunkLinesAdded(hunks[1..])
  }

  function HunkLinesRemoved(hunks: seq<Hunk>): int {
    if hunks == [] then 0
    else
      var d := LineCount(hunks[0].originalContent) - LineCount(hunks[0].newContent);
      (if d > 0 then d else 0) + HunkLinesRemoved(hunks[1..])
  }

  function LinesAdded(d: FileDiff): int {
    if d.fullNewContent.Some? && d.fullNewContent.value != "" then LineCount(d.fullNewContent.value)
    else HunkLinesAdded(d.hunks)
  }

  function LinesRemoved(d: FileDiff): int {
    if d.kind == Delete then 0 else HunkLinesRemoved(d.hunks)
  }

  predicate WithinLimits(d: FileDiff) {
    && |d.hunks| <= MAX_HUNKS_PER_FILE && LinesAdded(d) + LinesRemoved(d) <= MAX_TOTAL_LINES_CHANGED
    && forall h :: h in d.hunks ==>
        LineCount(h.originalContent) <= MAX_LINES_PER_HUNK && LineCount(h.newContent) <= MAX_LINES_PER_HUNK
  }

  /** All lines the hunks bring, and all they take. */
  function NewLines(hunks: seq<Hunk>): nat {
    if hunks == [] then 0 else |SplitLines(hunks[0].newContent)| + NewLines(hunks[1..])
  }

  function OldLines(hunks: seq<Hunk>): nat {
    if hunks == [] then 0 else |SplitLines(hunks[0].originalContent)| + OldLines(hunks[1..])
  }

  /** Added and removed lines balance, and a single hunk has lines of one kind only. */
  lemma {:induction false} LinesBalance(hunks: seq<Hunk>)
    ensures HunkLinesAdded(hunks) - HunkLinesRemoved(hunks) == NewLines(hunks) - OldLines(hunks)
    ensures HunkLinesAdded(hunks) >= 0 && HunkLinesRemoved(hunks) >= 0
    ensures |hunks| == 1 ==> HunkLinesAdded(hunks) == 0 || HunkLinesRemoved(hunks) == 0
  {
    if hunks != [] { LinesBalance(hunks[1..]); }
  }

  /** The limits in numbers, for a diff by hunks and for one with full content. */
  lemma LimitsExact(d: FileDiff)
    ensures WithinLimits(d) ==> |d.hunks| <= 50 && forall h :: h in d.hunks ==>
      |SplitLines(h.originalContent)| <= 500 && |SplitLines(h.newContent)| <= 500
    ensures |d.hunks| <= 50 && (forall h :: h in d.hunks ==>
      |SplitLines(h.originalContent)| <= 500 && |SplitLines(h.newContent)| <= 500) ==>
      (WithinLimits(d) <==> LinesAdded(d) + LinesRemoved(d) <= 1000)
    ensures d.fullNewContent in {None, Some("")} && d.kind != Delete ==>
      LinesAdded(d) - LinesRemoved(d) == NewLines(d.hunks) - OldLines(d.hunks)
    ensures d.fullNewContent.Some? && d.kind == Delete && d.fullNewContent.value != "" ==>
      LinesAdded(d) + LinesRemoved(d) == |SplitLines(d.fullNewContent.value)|
  {
    LinesBalance(d.hunks);
  }

  /** A text of up to 500 lines can replace any other text of up to 500 lines, and no text of more can. */
  lemma EditLimits(files: Files, path: Path, content: string, hash: string -> Hash)
    requires path in files && files[path] != content
    ensures Passes(files, EditOf(files, path, content, hash), hash) <==>
      |SplitLines(content)| <= 500 && |SplitLines(files[path])| <= 500
  {
    var d, current := EditOf(files, path, content, hash), files[path];
    assert d.hunks == [Hunk(0, |SplitLines(current)|, current, content)];
    OneHunkLimits(d, current, content);
  }

  lemma OneHunkLimits(d: FileDiff, current: string, content: string)
    requires d.hunks == [Hunk(0, |SplitLines(current)|, current, content)]
    requires d.kind == Modify && d.fullNewContent == Some(content)
    ensures WithinLimits(d) <==> |SplitLines(content)| <= 500 && |SplitLines(current)| <= 500
  {
    assert d.hunks[1..] == [] && HunkLinesAdded([]) == HunkLinesRemoved([]) == 0;
    assert d.hunks[0] in d.hunks;
    if content == "" { assert SplitLines(content) == []; }
  }

  /** What the validation asks of the file a diff is for. */
  predicate Current(files: Files, d: FileDiff, hash: string -> Hash) {
    && (d.kind in {Modify, Delete} ==> d.path in files)
    && (d.kind == Modify && d.originalHash.Some? && d.path in files ==> hash(files[d.path]) == d.originalHash.value)
  }

  function NewContent(files: Files, d: FileDiff): string {
    if d.fullNewContent.Some? then d.fullNewContent.value
    else Patched(if d.path in files then files[d.path] else "", d.hunks)
  }

  /** The files after the diff. */
  function AfterDiff(files: Files, d: FileDiff): Files {
    if d.kind == Delete then files - {d.path} else files[d.path := NewContent(files, d)]
  }

  /** The diffs `create_diff` and `create_deletion_diff` make of the files as they are. */
  function EditOf(files: Files, path: Path, content: string, hash: string -> Hash): FileDiff {
    if path in files then
      FileDiff(path, Modify, Some(hash(files[path])), CreateHunks(files[path], content), Some(content))
    else FileDiff(path, Add, None, CreateHunks("", content), Some(content))
  }

  function RemovalOf(files: Files, path: Path, hash: string -> Hash): FileDiff
    requires path in files
  {
    FileDiff(path, Delete, Some(hash(files[path])), [], None)
  }

  /** The validation accepts the diff in this state. */
  predicate Passes(files: Files, d: FileDiff, hash: string -> Hash) {
    WithinLimits(d) && Current(files, d, hash)
  }

  /** What is kept for undoing the diff. */
  function Kept(files: Files, d: FileDiff, createBackup: bool): string {
    if createBackup && d.kind in {Modify, Delete} && d.path in files then files[d.path] else ""
  }

  /** The files after undoing an applied diff, unless that fails. */
  function Undo(files: Files, e: Entry): Option<Files> {
    if e.diff.kind != Add then Some(files[e.diff.path := e.original])
    else if e.diff.path in files then Some(files - {e.diff.path})
    else None
  }

  /** The files after undoing the whole stack, unless some undoing fails. */
  function UndoAll(files: Files, stack: seq<Entry>): Option<Files>
    decreases |stack|
  {
    if stack == [] then Some(files)
    else
      var u := Undo(files, stack[|stack| - 1]);
      if u.None? then None else UndoAll(u.value, stack[..|stack| - 1])
  }

  /** A file to add must not be there; any other file must be, and be backed up or empty. */
  predicate Restorable(files: Files, d: FileDiff, createBackup: bool) {
    if d.kind == Add then d.path !in files
    else d.path in files && (files[d.path] == "" || (createBackup && d.kind != Replace))
  }

  /** Undoing a diff right after it was applied restores the files exactly if it was restorable. */
  lemma UndoRestores(files: Files, d: FileDiff, createBackup: bool)
    ensures Undo(AfterDiff(files, d), Entry(d, Kept(files, d, createBackup))) == Some(files) <==>
      Restorable(files, d, createBackup)
  {
    var after := AfterDiff(files, d);
    if d.kind == Add {
      assert d.path !in files ==> after - {d.path} == files;
    } else {
      var back := after[d.path := Kept(files, d, createBackup)];
      assert d.path in back && back[d.path] == Kept(files, d, createBackup);
      if Restorable(files, d, createBackup) {
        assert back == files;
      }
    }
  }

  /** The files after those of the first diffs that succeeded. */
  function StateAfter(files: Files, diffs: seq<FileDiff>, results: seq<bool>): Files
    requires |results| <= |diffs|
  {
    if results == [] then files
    else
      var k := |results| - 1;
      var s := StateAfter(files, diffs, results[..k]);
      if results[k] then AfterDiff(s, diffs[k]) else s
  }

  /** The entry the diff after `results` leaves on the stack. */
  function EntryAfter(files: Files, diffs: seq<FileDiff>, results: seq<bool>): Entry
    requires |results| < |diffs|
  {
    Entry(diffs[|results|], Kept(StateAfter(files, diffs, results), diffs[|results|], true))
  }

  /** The entries of the diffs that succeeded. */
  function Entries(files: Files, diffs: seq<FileDiff>, results: seq<bool>): seq<Entry>
    requires |results| <= |diffs|
  {
    if results == [] then []
    else
      var before := results[..|results| - 1];
      Entries(files, diffs, before) + if results[|results| - 1] then [EntryAfter(files, diffs, before)] else []
  }

  /** Every diff that succeeded was restorable in the state it was applied to. */
  ghost predicate AllRestorable(files: Files, diffs: seq<FileDiff>, results: seq<bool>)
    requires |results| <= |diffs|
  {
    results != [] ==>
      var before := results[..|results| - 1];
      && AllRestorable(files, diffs, before)
      && (results[|results| - 1] ==> Restorable(StateAfter(files, diffs, before), diffs[|results| - 1], true))
  }

  /** Every diff that was attempted passed the validation in its own state. */
  ghost predicate AllPassed(files: Files, diffs: seq<FileDiff>, results: seq<bool>, hash: string -> Hash)
    requires |results| <= |diffs|
  {
    results != [] ==>
      var before := results[..|results| - 1];
      AllPassed(files, diffs, before, hash) && Passes(StateAfter(files, diffs, before), diffs[|results| - 1], hash)
  }

  ghost predicate AllTrue(results: seq<bool>) {
    forall i :: 0 <= i < |results| ==> results[i]
  }

  /** What one more result adds. */
  lemma ResultAdded(files: Files, diffs: seq<FileDiff>, results: seq<bool>, last: bool)
    requires |results| < |diffs|
    ensures StateAfter(files, diffs, results + [last]) ==
      if last then AfterDiff(StateAfter(files, diffs, results), diffs[|results|]) else StateAfter(files, diffs, results)
    ensures Entries(files, diffs, results + [last]) ==
      Entries(files, diffs, results) + if last then [EntryAfter(files, diffs, results)] else []
    ensures AllRestorable(files, diffs, results + [last]) <==>
      AllRestorable(files, diffs, results) &&
      (last ==> Restorable(StateAfter(files, diffs, results), diffs[|results|], true))
  {
    assert (results + [last])[..|results|] == results;
  }

  /** The batch so far: what the results say has happened to the files and the stack. */
  ghost predicate Batch(files: Files, diffs: seq<FileDiff>, results: seq<bool>, stack: seq<Entry>,
                        hash: string -> Hash, now: Files, applied: seq<Entry>) {
    && |results| <= |diffs| && now == StateAfter(files, diffs, results)
    && applied == stack + Entries(files, diffs, results) && AllPassed(files, diffs, results, hash)
  }

  lemma BatchNext(files: Files, diffs: seq<FileDiff>, results: seq<bool>, stack: seq<Entry>,
                  hash: string -> Hash, now: Files, applied: seq<Entry>, last: bool)
    requires Batch(files, diffs, results, stack, hash, now, applied) && |results| < |diffs|
    requires Passes(now, diffs[|results|], hash)
    ensures var d := diffs[|results|];
      Batch(files, diffs, results + [last], stack, hash, if last then AfterDiff(now, d) else now,
            applied + if last then [Entry(d, Kept(now, d, true))] else [])
  {
    ResultAdded(files, diffs, results, last);
    assert (results + [last])[..|results|] == results;
  }

  /** Any run of successful applications, each restorable where it happened, is undone completely:
      what is below on the stack is all that still counts. */
  lemma {:induction false} RunUndone(files: Files, diffs: seq<FileDiff>, results: seq<bool>, stack: seq<Entry>)
    requires |results| <= |diffs| && AllRestorable(files, diffs, results)
    ensures UndoAll(StateAfter(files, diffs, results), stack + Entries(files, diffs, results)) == UndoAll(files, stack)
  {
    if results == [] {
      assert stack + Entries(files, diffs, results) == stack;
    } else {
      var before, last := results[..|results| - 1], results[|results| - 1];
      assert results == before + [last];
      ResultAdded(files, diffs, before, last);
      RunUndone(files, diffs, before, stack);
      var lower := stack + Entries(files, diffs, before);
      if last {
        UndoRestores(StateAfter(files, diffs, before), diffs[|before|], true);
        var all := lower + [EntryAfter(files, diffs, before)];
        assert stack + Entries(files, diffs, results) == all && all[..|all| - 1] == lower;
      } else {
        assert stack + Entries(files, diffs, results) == lower;
      }
    }
  }

  class DiffEngine {
    const guard: FileGuard
    const hash: string -> Hash
    var applied: seq<Entry>

    constructor (guard: FileGuard, hash: string -> Hash)
      ensures this.guard == guard && this.hash == hash && applied == []
    {
      this.guard, this.hash, applied := guard, hash, [];
    }

    /** `create_diff`; it raises unless the file can be read or is missing. The hunks lead to the new
        content just as the full text does. */
    method CreateDiff(path: Path, content: string) returns (r: Option<FileDiff>)
      modifies guard`ops
      ensures guard.ops == old(guard.ops) + 1 && (r.None? <==> guard.refuses(old(guard.ops)))
      ensures r.Some? ==> AfterDiff(guard.files, r.value) == guard.files[path := content]
      ensures r.Some? ==> Restorable(guard.files, r.value, true) && Current(guard.files, r.value, hash)
      ensures r.Some? ==> r.value == EditOf(guard.files, path, content, hash)
      ensures r.Some? ==> r.value.path == path && r.value.kind == if path in guard.files then Modify else Add
      ensures r.Some? ==> Patched(if path in guard.files then guard.files[path] else "", r.value.hunks) == content
      ensures r.Some? && path in guard.files ==> r.value.originalHash == Some(hash(guard.files[path]))
    {
      var read := guard.Read(path);
      match read
      case Refused => return None;
      case Text(current) =>
        return Some(FileDiff(path, Modify, Some(hash(current)), CreateHunks(current, content), Some(content)));
      case Missing =>
        return Some(FileDiff(path, Add, None, CreateHunks("", content), Some(content)));
    }

    /** `create_deletion_diff`. */
    method CreateDeletionDiff(path: Path) returns (r: Option<FileDiff>)
      modifies guard`ops
      ensures guard.ops == old(guard.ops) + 1
      ensures r.Some? <==> !guard.refuses(old(guard.ops)) && path in guard.files
      ensures r.Some? ==> r.value == RemovalOf(guard.files, path, hash)
      ensures r.Some? ==> AfterDiff(guard.files, r.value) == guard.files - {path}
      ensures r.Some? ==> Restorable(guard.files, r.value, true) && Current(guard.files, r.value, hash)
      ensures r.Some? ==> WithinLimits(r.value)
    {
      var read := guard.Read(path);
      match read
      case Text(current) => return Some(FileDiff(path, Delete, Some(hash(current)), [], None));
      case _ => return None;
    }

    /** `validate_diff` with strict validation. */
    method ValidateDiff(d: FileDiff) returns (r: Answer)
      modifies guard`ops
      ensures guard.ops >= old(guard.ops)
      ensures r == Yes ==> Passes(guard.files, d, hash)
      ensures r == No ==> !Passes(guard.files, d, hash)
      ensures r == Raised ==> !guard.Smooth(old(guard.ops))
    {
      var valid := WithinLimits(d);
      if d.kind == Modify {
        var read := guard.Read(d.path);
        match read
        case Refused =>
          assert guard.refuses(guard.ops - 1);
          return Raised;
        case Missing => valid := false;
        case Text(current) =>
          if d.originalHash.Some? && hash(current) != d.originalHash.value { valid := false; }
      }
      if d.kind == Delete {
        var there := guard.Exists(d.path);
        if there == Raised {
          assert guard.refuses(guard.ops - 1);
          return Raised;
        }
        if there == No { valid := false; }
      }
      return if valid then Yes else No;
    }

    /** The backup of the file and the content kept for undoing; fails on any exception. */
    method Keep(d: FileDiff, createBackup: bool) returns (ok: bool, kept: string)
      modifies guard`ops, guard`backups
      ensures guard.ops >= old(guard.ops)
      ensures ok ==> kept == Kept(guard.files, d, createBackup)
      ensures !ok ==> !guard.Smooth(old(guard.ops))
    {
      if !createBackup || d.kind !in {Modify, Delete} { return true, ""; }
      var there := guard.Exists(d.path);
      if there == Raised {
        assert guard.refuses(guard.ops - 1);
        return false, "";
      }
      if there == No { return true, ""; }
      var copied, _ := guard.CreateBackup(d.path);
      if !copied {
        assert guard.refuses(guard.ops - 1);
        return false, "";
      }
      var read := guard.Read(d.path);
      if !read.Text? {
        assert guard.refuses(guard.ops - 1);
        return false, "";
      }
      return true, read.content;
    }

    /** Computes and writes the new content. */
    method WriteNew(d: FileDiff) returns (ok: bool)
      requires d.kind != Delete
      modifies guard`ops, guard`files
      ensures guard.ops >= old(guard.ops)
      ensures guard.files == if ok then AfterDiff(old(guard.files), d) else old(guard.files)
      ensures !ok ==> !guard.Smooth(old(guard.ops))
    {
      var content;
      if d.fullNewContent.Some? {
        content := d.fullNewContent.value;
      } else {
        var current := "";
        var there := guard.Exists(d.path);
        if there == Raised {
          assert guard.refuses(guard.ops - 1);
          return false;
        }
        if there == Yes {
          var read := guard.Read(d.path);
          if !read.Text? {
            assert guard.refuses(guard.ops - 1);
            return false;
          }
          current := read.content;
        }
        content := ApplyHunks(current, d.hunks);
      }
      ok := guard.Write(d.path, content);
      if !ok { assert guard.refuses(guard.ops - 1); }
    }

    /** `apply`. A restorable diff leaves what undoing the whole stack leads to unchanged. */
    method Apply(d: FileDiff, createBackup: bool := true, validate: bool := true) returns (r: ApplyResult)
      modifies this`applied, guard`ops, guard`files, guard`backups
      ensures guard.ops >= old(guard.ops)
      ensures guard.files == if r == Applied then AfterDiff(old(guard.files), d) else old(guard.files)
      ensures applied == old(applied) + if r == Applied then [Entry(d, Kept(old(guard.files), d, createBackup))] else []
      ensures r != Rejected && validate ==> Passes(old(guard.files), d, hash)
      ensures guard.Smooth(old(guard.ops)) ==>
        r == if validate && !Passes(old(guard.files), d, hash) then Rejected
             else if d.kind == Delete && d.path !in old(guard.files) then Failed
             else Applied
      ensures r == Applied && Restorable(old(guard.files), d, createBackup) ==>
        UndoAll(guard.files, applied) == old(UndoAll(guard.files, applied))
    {
      if validate {
        var valid := ValidateDiff(d);
        if valid != Yes { return Rejected; }
      }
      ghost var files := guard.files;
      var kept, original := Keep(d, createBackup);
      if !kept { return Failed; }
      var done;
      if d.kind == Delete {
        done := guard.Delete(d.path);
        assert !done ==> guard.refuses(guard.ops - 1) || d.path !in files;
      } else {
        done := WriteNew(d);
      }
      if !done { return Failed; }
      applied := applied + [Entry(d, original)];
      assert applied[..|applied| - 1] == old(applied);
      UndoRestores(files, d, createBackup);
      return Applied;
    }

    /** `rollback_last`. */
    method RollbackLast() returns (ok: bool)
      modifies this`applied, guard`ops, guard`files
      ensures old(applied) == [] ==>
        !ok && applied == [] && guard.files == old(guard.files) && guard.ops == old(guard.ops)
      ensures old(applied) != [] ==> applied == old(applied[..|applied| - 1]) && guard.ops == old(guard.ops) + 1
      ensures old(applied) != [] ==>
        (ok <==> !guard.refuses(old(guard.ops)) && old(Undo(guard.files, applied[|applied| - 1])).Some?)
      ensures guard.files == if ok then old(Undo(guard.files, applied[|applied| - 1])).value else old(guard.files)
    {
      if applied == [] { return false; }
      var e := applied[|applied| - 1];
      applied := applied[..|applied| - 1];
      if e.diff.kind == Add {
        ok := guard.Delete(e.diff.path);
      } else {
        ok := guard.Write(e.diff.path, e.original);
      }
    }

    /** `rollback_all`: it stops at the first failure, which has left the stack all the same. With
        nothing refused it arrives where undoing the whole stack leads. */
    method RollbackAll() returns (count: nat)
      modifies this`applied, guard`ops, guard`files
      ensures applied <= old(applied) && count <= |old(applied)| - |applied| <= count + 1
      ensures old(guard.ops) <= guard.ops <= old(guard.ops) + |old(applied)|
      ensures guard.Smooth(old(guard.ops)) && old(UndoAll(guard.files, applied)).Some? ==>
        guard.files == old(UndoAll(guard.files, applied)).value && applied == [] && count == |old(applied)|
    {
      count := 0;
      ghost var goal := UndoAll(guard.files, applied);
      ghost var start, stack := guard.ops, applied;
      while applied != []
        invariant applied <= stack && count == |stack| - |applied| && guard.ops == start + count
        invariant guard.Smooth(start) && goal.Some? ==> UndoAll(guard.files, applied) == goal
        decreases |applied|
      {
        var ok := RollbackLast();
        if !ok {
          assert guard.refuses(guard.ops - 1) || goal.None? || !guard.Smooth(start);
          return;
        }
        count := count + 1;
      }
    }

    /** The rollback of an atomic batch: the diffs that succeeded are undone, the last one first. */
    method Revert(results: seq<bool>, ghost files: Files, ghost diffs: seq<FileDiff>, ghost stack: seq<Entry>)
      requires |results| <= |diffs|
      requires guard.files == StateAfter(files, diffs, results) && applied == stack + Entries(files, diffs, results)
      modifies this`applied, guard`ops, guard`files
      ensures applied == stack && old(guard.ops) <= guard.ops <= old(guard.ops) + |results|
      ensures guard.Smooth(old(guard.ops)) && AllRestorable(files, diffs, results) ==> guard.files == files
    {
      assert results[..|results|] == results;
      ghost var start := guard.ops;
      for k := |results| downto 0
        invariant applied == stack + Entries(files, diffs, results[..k]) && start <= guard.ops <= start + |results| - k
        invariant guard.Smooth(start) && AllRestorable(files, diffs, results) ==>
          guard.files == StateAfter(files, diffs, results[..k]) && AllRestorable(files, diffs, results[..k])
      {
        assert results[..k + 1] == results[..k] + [results[k]];
        RevertOne(results[..k], results[k], files, diffs, stack);
      }
    }

    /** Undoes the last result. */
    method RevertOne(ghost results: seq<bool>, last: bool, ghost files: Files, ghost diffs: seq<FileDiff>,
                     ghost stack: seq<Entry>)
      requires |results| < |diffs| && applied == stack + Entries(files, diffs, results + [last])
      modifies this`applied, guard`ops, guard`files
      ensures applied == stack + Entries(files, diffs, results) && old(guard.ops) <= guard.ops <= old(guard.ops) + 1
      ensures AllRestorable(files, diffs, results + [last]) ==> AllRestorable(files, diffs, results)
      ensures guard.Smooth(old(guard.ops)) && AllRestorable(files, diffs, results + [last]) ==>
        old(guard.files) == StateAfter(files, diffs, results + [last]) ==>
        guard.files == StateAfter(files, diffs, results)
    {
      ResultAdded(files, diffs, results, last);
      if last {
        ghost var below, entry := stack + Entries(files, diffs, results), EntryAfter(files, diffs, results);
        assert applied == below + [entry];
        UndoOne(StateAfter(files, diffs, results), diffs[|results|], below);
      }
    }

    /** Undoes the diff just below: `files` and `stack` are from before it was applied. */
    method UndoOne(ghost files: Files, ghost d: FileDiff, ghost stack: seq<Entry>)
      requires applied == stack + [Entry(d, Kept(files, d, true))]
      modifies this`applied, guard`ops, guard`files
      ensures applied == stack && guard.ops == old(guard.ops) + 1
      ensures guard.Smooth(old(guard.ops)) && Restorable(files, d, true) && old(guard.files) == AfterDiff(files, d) ==>
        guard.files == files
    {
      UndoRestores(files, d, true);
      assert applied[..|applied| - 1] == stack;
      var ok := RollbackLast();
      assert !ok ==>
        guard.refuses(guard.ops - 1) || !Restorable(files, d, true) || old(guard.files) != AfterDiff(files, d);
    }

    /** `apply_multiple`. When a diff fails in atomic mode the stack is as before the call, and so are
        the files if the earlier diffs were restorable and no undoing was refused (from operation
        `undoAt` on, one for each of them at most). When the validation of a diff raises, the earlier
        diffs stay applied; with nothing refused that happens exactly if some diff does not pass in the
        state the ones before it have led to, and nothing else can go wrong. */
    method ApplyMultiple(diffs: seq<FileDiff>, atomic: bool := true)
      returns (results: seq<bool>, raised: bool, ghost undoAt: nat)
      modifies this`applied, guard`ops, guard`files, guard`backups
      ensures |results| <= |diffs|
      ensures var reverted := atomic && results != [] && !results[|results| - 1];
        && (!reverted ==> guard.files == StateAfter(old(guard.files), diffs, results))
        && (!reverted ==> applied == old(applied) + Entries(old(guard.files), diffs, results))
        && (!reverted && !raised ==> |results| == |diffs|)
        && (reverted ==> !raised && applied == old(applied) && guard.ops < undoAt + |results|)
        && (reverted && guard.Smooth(undoAt) && AllRestorable(old(guard.files), diffs, results) ==>
              guard.files == old(guard.files))
      ensures atomic ==> forall i :: 0 <= i < |results| - 1 ==> results[i]
      ensures guard.ops >= old(guard.ops) && AllPassed(old(guard.files), diffs, results, hash)
      ensures guard.Smooth(old(guard.ops)) ==>
        AllTrue(results) && (raised <==> |results| < |diffs|) &&
        (raised ==> !Passes(StateAfter(old(guard.files), diffs, results), diffs[|results|], hash))
    {
      results, undoAt := [], guard.ops;
      ghost var files, stack, start := guard.files, applied, guard.ops;
      assert stack + Entries(files, diffs, []) == stack;
      for k := 0 to |diffs|
        invariant |results| == k && (atomic ==> AllTrue(results)) && guard.ops >= start
        invariant Batch(files, diffs, results, stack, hash, guard.files, applied)
        invariant guard.Smooth(start) ==> AllTrue(results)
      {
        ghost var now, entries := guard.files, applied;
        var r := Apply(diffs[k]);
        if r == Rejected { return results, true, undoAt; }
        BatchNext(files, diffs, results, stack, hash, now, entries, r == Applied);
        var before := results;
        results := results + [r == Applied];
        if r == Failed && atomic {
          undoAt := guard.ops;
          Revert(before, files, diffs, stack);
          return results, false, undoAt;
        }
      }
      return results, false, undoAt;
    }
  }

  /** A batch that is not atomic: its first diff adds a file, its second one is for a file that is not
      there, so its validation raises after the first has been applied. */
  lemma RaisingBatch(first: FileDiff, second: FileDiff, hash: string -> Hash)
    requires first == EditOf(map[], "a", "x", hash) && second == FileDiff("b", Modify, None, [], Some("y"))
    ensures AllPassed(map[], [first, second], [true], hash)
    ensures var s := StateAfter(map[], [first, second], [true]);
      !Passes(s, second, hash) && s == map["a" := "x"]
  {
    assert FirstLine("x") == 1 && "x"[1..] == "";
    assert SplitLines("x") == ["x"[..1]];
    assert [true][..0] == [];
    assert StateAfter(map[], [first, second], []) == map[];
    assert first.hunks == [Hunk(0, 0, "", "x")] && first.hunks[1..] == [];
  }

  /** An edit of one file, against the files as they are. */
  datatype Edit = Put(path: Path, content: string) | Remove(path: Path)

  /** One edit by the engine; it may be refused or rejected, and then changes nothing. */
  method PerformEdit(engine: DiffEngine, edit: Edit)
    modifies engine`applied, engine.guard`ops, engine.guard`files, engine.guard`backups
    ensures engine.guard.ops >= old(engine.guard.ops)
    ensures old(engine.applied) <= engine.applied && |engine.applied| <= |old(engine.applied)| + 1
    ensures UndoAll(engine.guard.files, engine.applied) == old(UndoAll(engine.guard.files, engine.applied))
  {
    ghost var files, stack := engine.guard.files, engine.applied;
    var d;
    match edit {
      case Put(path, content) => d := engine.CreateDiff(path, content);
      case Remove(path) => d := engine.CreateDeletionDiff(path);
    }
    if d.Some? {
      assert UndoAll(engine.guard.files, engine.applied) == UndoAll(files, stack);
      var r := engine.Apply(d.value);
      if r != Applied { assert engine.applied == stack && engine.guard.files == files; }
    }
  }

  /** Any sequence of edits, each against the state it meets, and then `rollback_all`: the files are
      what they were, if no undoing was refused (from operation `undoAt` on, one for each edit at most). */
  method EditThenRollback(engine: DiffEngine, edits: seq<Edit>) returns (ghost undoAt: nat)
    requires engine.applied == []
    modifies engine`applied, engine.guard`ops, engine.guard`files, engine.guard`backups
    ensures old(engine.guard.ops) <= undoAt <= engine.guard.ops <= undoAt + |edits|
    ensures engine.guard.Smooth(undoAt) ==> engine.guard.files == old(engine.guard.files) && engine.applied == []
  {
    ghost var start, files := engine.guard.ops, engine.guard.files;
    for k := 0 to |edits|
      invariant engine.guard.ops >= start && |engine.applied| <= k
      invariant UndoAll(engine.guard.files, engine.applied) == Some(files)
    {
      PerformEdit(engine, edits[k]);
    }
    undoAt := engine.guard.ops;
    var count := engine.RollbackAll();
  }
}
