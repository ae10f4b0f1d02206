/**
  Checkpoints of the file system: snapshots of the modified files, their restoration, and the
  numbering and pruning of the checkpoints.
 */
module Rollbacks {
  import opened Options
  import opened FileGuards
  import opened SnapshotSpec

  /** `cp_<run>_<number>`. */
  datatype CheckpointId = CheckpointId(run: string, number: nat)

  datatype Checkpoint = Checkpoint(id: CheckpointId, snapshots: Snapshots)

  datatype RollbackOutcome = RolledBack | NotFound | RestoreFailed

  /** Removes the oldest checkpoints until at most `max` are left. */
  function Prune(order: seq<CheckpointId>, keys: set<CheckpointId>, max: nat): (seq<CheckpointId>, set<CheckpointId>) {
    if |order| > max then Prune(order[1..], keys - {order[0]}, max) else (order, keys)
  }

  /** The numbering and pruning of one more checkpoint. */
  function Created(order: seq<CheckpointId>, keys: set<CheckpointId>, run: string, max: nat)
    : (seq<CheckpointId>, set<CheckpointId>)
  {
    var id := CheckpointId(run, |order|);
    Prune(order + [id], keys + {id}, max)
  }

  /** Identifiers are numbered by position. */
  ghost predicate Numbered(order: seq<CheckpointId>) {
    forall i :: 0 <= i < |order| ==> order[i].number == i
  }

  lemma NumberedDistinct(order: seq<CheckpointId>, i: nat, j: nat)
    requires Numbered(order) && i < |order| && j < |order| && order[i] == order[j]
    ensures i == j
  {
    assert order[i].number == i && order[j].number == j;
  }

  /** One run's identifiers, numbered from `first` on. */
  ghost predicate Consecutive(order: seq<CheckpointId>, run: string, first: nat) {
    forall i :: 0 <= i < |order| ==> order[i] == CheckpointId(run, first + i)
  }

  /** The next identifier is new exactly if nothing has been pruned yet, or more than is left. */
  lemma NextIdExact(order: seq<CheckpointId>, run: string, first: nat)
    requires Consecutive(order, run, first)
    ensures CheckpointId(run, |order|) !in order <==> first == 0 || first > |order|
  {
    if 1 <= first <= |order| {
      assert order[|order| - first] == CheckpointId(run, |order|);
    }
  }

  /** The manager after `n` checkpoints of one run. */
  function CreatedTimes(run: string, max: nat, n: nat): (seq<CheckpointId>, set<CheckpointId>) {
    if n == 0 then ([], {})
    else
      var s := CreatedTimes(run, max, n - 1);
      Created(s.0, s.1, run, max)
  }

  /** The list of checkpoints after `max + j` of them: the repeats of number `max` pile up. */
  ghost predicate PiledUp(order: seq<CheckpointId>, run: string, max: nat, j: nat) {
    && |order| == max && j <= max
    && (forall i :: 0 <= i < max ==> order[i] == CheckpointId(run, if i < max - j then j + i else max))
  }

  lemma {:induction false} FirstOnes(run: string, max: nat, n: nat)
    requires n <= max
    ensures |CreatedTimes(run, max, n).0| == n && Consecutive(CreatedTimes(run, max, n).0, run, 0)
  {
    if n > 0 { FirstOnes(run, max, n - 1); }
  }

  lemma {:induction false} Piling(run: string, max: nat, j: nat)
    requires 1 <= max && j <= max
    ensures PiledUp(CreatedTimes(run, max, max + j).0, run, max, j)
  {
    if j == 0 {
      FirstOnes(run, max, max);
    } else {
      Piling(run, max, j - 1);
      var s := CreatedTimes(run, max, max + j - 1);
      PruneOne(s.0, s.1, run, max);
    }
  }

  /** A full list drops its oldest entry. */
  lemma PruneOne(order: seq<CheckpointId>, keys: set<CheckpointId>, run: string, max: nat)
    requires |order| == max >= 1
    ensures Created(order, keys, run, max) ==
      (order[1..] + [CheckpointId(run, max)], keys + {CheckpointId(run, max)} - {order[0]})
  {
    var id := CheckpointId(run, max);
    var longer := order + [id];
    assert longer[1..] == order[1..] + [id] && longer[0] == order[0];
    assert Prune(longer[1..], keys + {id} - {order[0]}, max).0 == longer[1..];
  }

  /** From checkpoint number `2 * max` on the list holds nothing but repeats of one identifier. */
  lemma {:induction false} OnlyRepeats(run: string, max: nat, n: nat)
    requires 1 <= max && n >= 2 * max
    ensures PiledUp(CreatedTimes(run, max, n).0, run, max, max)
  {
    if n == 2 * max {
      Piling(run, max, max);
    } else {
      OnlyRepeats(run, max, n - 1);
      var s := CreatedTimes(run, max, n - 1);
      PruneOne(s.0, s.1, run, max);
    }
  }

  /** The `n`-th checkpoint of a run can be found after its creation if and only if `n` is at most twice
      the limit; every later one is deleted by its own creation, which prunes the oldest entry. */
  lemma CheckpointsVanish(run: string, max: nat, n: nat)
    requires n >= 1
    ensures CheckpointId(run, |CreatedTimes(run, max, n - 1).0|) in CreatedTimes(run, max, n).1 <==> n <= 2 * max
  {
    var s := CreatedTimes(run, max, n - 1);
    if max == 0 {
      NoneKept(run, n - 1);
      PruneAll(run);
    } else if n <= max {
      FirstOnes(run, max, n - 1);
    } else {
      if n <= 2 * max { Piling(run, max, n - 1 - max); } else { OnlyRepeats(run, max, n - 1); }
      PruneOne(s.0, s.1, run, max);
    }
  }

  /** A limit of zero keeps nothing. */
  lemma {:induction false} NoneKept(run: string, n: nat)
    ensures CreatedTimes(run, 0, n).0 == [] && CreatedTimes(run, 0, n).1 == {}
  {
    if n > 0 {
      NoneKept(run, n - 1);
      PruneAll(run);
    }
  }

  lemma PruneAll(run: string)
    ensures Created([], {}, run, 0) == ([], {})
  {
    var id := CheckpointId(run, 0);
    var order: seq<CheckpointId>, keys := [] + [id], {} + {id};
    assert order[1..] == [] && keys - {order[0]} == {};
    assert Prune(order[1..], keys - {order[0]}, 0) == ([], {});
  }

  /** The elements of a list. */
  ghost function Elements<T(!new)>(s: seq<T>): set<T> {
    set x | x in s
  }

  /** The list is cut behind the first entry called `id`, and what the rest named is no longer found. */
  ghost predicate CutAt(order: seq<CheckpointId>, known: map<CheckpointId, Checkpoint>, id: CheckpointId, idx: nat,
                        left: seq<CheckpointId>, still: map<CheckpointId, Checkpoint>) {
    && idx < |order| && order[idx] == id && id !in order[..idx]
    && left == order[..idx + 1] && still == known - Elements(order[idx + 1..])
  }

  /** The list is numbered by position, and all its checkpoints can be found. */
  ghost predicate Listed(order: seq<CheckpointId>, known: map<CheckpointId, Checkpoint>) {
    Numbered(order) && forall id :: id in order ==> id in known && known[id].id == id
  }

  /** Cutting the list and dropping what it no longer names keeps the numbering. */
  lemma CutListed(order: seq<CheckpointId>, all: map<CheckpointId, Checkpoint>, left: map<CheckpointId, Checkpoint>,
                  n: nat)
    requires Listed(order, all) && n <= |order|
    requires forall x :: x in left <==> x in all && x !in order[n..]
    requires forall x :: x in left ==> left[x] == all[x]
    ensures Listed(order[..n], left)
  {
    forall x | x in order[..n]
      ensures x in order && x !in order[n..]
    {
      var i :| 0 <= i < n && order[i] == x;
      forall j | n <= j < |order| ensures order[j] != x { assert order[j].number == j; }
    }
  }

  /** Storing in both places stores in what can be found. */
  lemma StoredTwice(disk: map<CheckpointId, Checkpoint>, memory: map<CheckpointId, Checkpoint>, id: CheckpointId,
                    c: Checkpoint)
    ensures disk[id := c] + memory[id := c] == (disk + memory)[id := c]
  {
  }

  ghost predicate ArchiveOk(g: FileGuard, large: string -> bool, checkpoints: map<CheckpointId, Checkpoint>,
                            origins: map<CheckpointId, Origin>, backups: map<string, string>, now: nat) {
    forall id {:trigger id in checkpoints} :: id in checkpoints ==>
      id in origins && AllSnapsOk(g, large, checkpoints[id].snapshots, origins[id], backups, now)
  }

  /** Whatever the guard does, the archive stays; and it stays when checkpoints are dropped. */
  lemma ArchiveStays(g: FileGuard, large: string -> bool, checkpoints: map<CheckpointId, Checkpoint>,
                     left: map<CheckpointId, Checkpoint>, origins: map<CheckpointId, Origin>,
                     before: map<string, string>, a: nat, after: map<string, string>, b: nat)
    requires ArchiveOk(g, large, checkpoints, origins, before, a) && Evolved(g, before, a, after, b)
    requires forall id :: id in left ==> id in checkpoints && left[id] == checkpoints[id]
    ensures ArchiveOk(g, large, left, origins, after, b)
  {
    forall id | id in left
      ensures id in origins && AllSnapsOk(g, large, left[id].snapshots, origins[id], after, b)
    {
      assert id in checkpoints;
      AllSnapsStay(g, large, left[id].snapshots, origins[id], before, a, after, b);
    }
  }

  class RollbackManager {
    const guard: FileGuard
    const maxCheckpoints: nat
    /** Whether a text is too large to be kept inline. */
    const large: string -> bool
    var checkpoints: map<CheckpointId, Checkpoint>
    /** The checkpoint directory, which outlives the manager. */
    var disk: map<CheckpointId, Checkpoint>
    var order: seq<CheckpointId>
    /** The files at the creation of each checkpoint that can be found, and the operations that took them. */
    ghost var origins: map<CheckpointId, Origin>

    /** A new manager has nothing in memory, whatever it finds in its directory. */
    constructor (guard: FileGuard, maxCheckpoints: nat, large: string -> bool,
                 disk: map<CheckpointId, Checkpoint>, ghost origins: map<CheckpointId, Origin>)
      ensures this.guard == guard && this.maxCheckpoints == maxCheckpoints && this.large == large
      ensures this.disk == disk && this.origins == origins && order == [] && Known() == disk && Orderly() && Saved()
      ensures Archived() <==> ArchiveOk(guard, large, disk, origins, guard.backups, guard.ops)
    {
      this.guard, this.maxCheckpoints, this.large := guard, maxCheckpoints, large;
      this.disk, this.origins := disk, origins;
      checkpoints, order := map[], [];
      new;
      assert Known() == disk;
    }

    /** Everything in memory is on disk as well. */
    ghost predicate Saved()
      reads this
    {
      Known() == disk
    }

    /** What `get_checkpoint` finds: in memory first, then on disk. */
    function Known(): map<CheckpointId, Checkpoint>
      reads this
    {
      disk + checkpoints
    }

    /** Every checkpoint that can be found still holds what was taken of the files of its creation. */
    ghost predicate Archived()
      reads this, guard`ops, guard`backups
    {
      ArchiveOk(guard, large, Known(), origins, guard.backups, guard.ops)
    }

    /** The checkpoints of the list can be found, and it is numbered by position. */
    ghost predicate Orderly()
      reads this
    {
      Listed(order, Known())
    }

    /** `_snapshot_file`: exact for a missing file, and for any other exactly if nothing was refused. */
    method SnapshotFile(p: Path) returns (s: FileSnapshot)
      modifies guard`ops, guard`backups
      ensures guard.ops > old(guard.ops)
      ensures Exact(s, guard.files, guard.backups, p) <==> p !in guard.files || guard.Smooth(old(guard.ops))
      ensures s.existed <==> p in guard.files && guard.Smooth(old(guard.ops))
      ensures !s.existed ==> s == ABSENT
      ensures s.existed ==> p in guard.files && (if large(guard.files[p]) then s.content.None? else s.content.Some?)
      ensures s.backup.Some? ==> s.backup.value == guard.backupName(guard.ops - 1)
      ensures forall b :: b != guard.backupName(guard.ops - 1) ==>
        Lookup(guard.backups, b) == Lookup(old(guard.backups), b)
      ensures s.existed ==> (if large(guard.files[p]) then s.backup.Some? else s.content == Some(guard.files[p]))
    {
      var there := guard.Exists(p);
      if there != Yes {
        assert there == Raised ==> guard.refuses(guard.ops - 1);
        return ABSENT;
      }
      var read := guard.Read(p);
      if !read.Text? {
        assert guard.refuses(guard.ops - 1);
        return ABSENT;
      }
      if !large(read.content) { return FileSnapshot(true, Some(read.content), None); }
      var ok, name := guard.CreateBackup(p);
      if !ok {
        assert guard.refuses(guard.ops - 1);
        return ABSENT;
      }
      return FileSnapshot(true, None, Some(name));
    }

    /** One more snapshot, in the archive's terms. */
    method TakeSnapshot(p: Path) returns (s: FileSnapshot, ghost span: Span)
      modifies guard`ops, guard`backups
      ensures old(guard.ops) < guard.ops && span == Span(old(guard.ops), guard.ops - 1)
      ensures SnapOk(guard, large, s, Origin(guard.files, map[p := span]), p, guard.backups, guard.ops)
      ensures Evolved(guard, old(guard.backups), old(guard.ops), guard.backups, guard.ops)
    {
      s := SnapshotFile(p);
      span := Span(old(guard.ops), guard.ops - 1);
      assert Unrefused(guard, span) <==> guard.Smooth(old(guard.ops));
      assert forall n :: Unused(guard, n, old(guard.ops), guard.ops) ==> n != guard.backupName(guard.ops - 1);
    }

    /** The snapshots of all `modified` files; a path listed twice keeps its last one. Nothing refused
        and no backup name used twice makes them all exact. */
    method SnapshotAll(modified: seq<Path>) returns (snapshots: Snapshots, ghost spans: map<Path, Span>)
      modifies guard`ops, guard`backups
      ensures snapshots.Keys == spans.Keys == set p | p in modified
      ensures AllSnapsOk(guard, large, snapshots, Origin(guard.files, spans), guard.backups, guard.ops)
      ensures TakenFrom(Origin(guard.files, spans), old(guard.ops))
      ensures Evolved(guard, old(guard.backups), old(guard.ops), guard.backups, guard.ops)
    {
      snapshots, spans := map[], map[];
      ghost var start, backups := guard.ops, guard.backups;
      for k := 0 to |modified|
        invariant snapshots.Keys == spans.Keys == set p | p in modified[..k]
        invariant AllSnapsOk(guard, large, snapshots, Origin(guard.files, spans), guard.backups, guard.ops)
        invariant TakenFrom(Origin(guard.files, spans), start)
        invariant Evolved(guard, backups, start, guard.backups, guard.ops)
      {
        ghost var b, n := guard.backups, guard.ops;
        var p := modified[k];
        var s;
        ghost var span;
        s, span := TakeSnapshot(p);
        EvolvedOn(guard, backups, start, b, n, guard.backups, guard.ops);
        AllSnapsStay(guard, large, snapshots, Origin(guard.files, spans), b, n, guard.backups, guard.ops);
        SnapAdded(guard, large, snapshots, Origin(guard.files, spans), p, s, span, guard.backups, guard.ops);
        snapshots, spans := snapshots[p := s], spans[p := span];
        assert modified[..k + 1] == modified[..k] + [p];
      }
      assert modified[..|modified|] == modified;
    }

    /** `create_checkpoint`. The files are not touched, and the checkpoints taken before stay as they
        are. */
    method CreateCheckpoint(run: string, modified: seq<Path>) returns (c: Checkpoint)
      modifies this`checkpoints, this`disk, this`order, this`origins, guard`ops, guard`backups
      ensures c.id == CheckpointId(run, old(|order|)) && c.snapshots.Keys == set p | p in modified
      ensures guard.Smooth(old(guard.ops)) && NamesDistinct(guard, old(guard.ops), guard.ops) ==>
        AllExact(c.snapshots, guard.files, guard.backups)
      ensures (order, Known().Keys) == Created(old(order), old(Known()).Keys, run, maxCheckpoints)
      ensures forall id :: id in Known() ==>
        Some(Known()[id]) == if id == c.id then Some(c) else Lookup(old(Known()), id)
      ensures old(|order|) < maxCheckpoints ==> order == old(order) + [c.id] && Known() == old(Known())[c.id := c]
      ensures old(Orderly()) && old(|order|) < maxCheckpoints ==> Orderly()
      ensures Evolved(guard, old(guard.backups), old(guard.ops), guard.backups, guard.ops)
      ensures c.id in origins && origins == old(origins)[c.id := origins[c.id]] && origins[c.id].files == guard.files
      ensures TakenFrom(origins[c.id], old(guard.ops))
      ensures AllSnapsOk(guard, large, c.snapshots, origins[c.id], guard.backups, guard.ops)
      ensures old(Archived()) ==> Archived()
      ensures old(Saved()) ==> Saved()
    {
      ghost var b, n := guard.backups, guard.ops;
      var snapshots;
      ghost var spans;
      snapshots, spans := SnapshotAll(modified);
      ghost var origin := Origin(guard.files, spans);
      CalmSnapshots(guard, large, snapshots, origin, guard.backups, n, guard.ops);
      if ArchiveOk(guard, large, Known(), origins, b, n) {
        ArchiveStays(guard, large, Known(), Known(), origins, b, n, guard.backups, guard.ops);
      }
      c := Checkpoint(CheckpointId(run, |order|), snapshots);
      Retain(c, origin);
    }

    /** Stores the checkpoint in memory and on disk and removes those beyond the limit. */
    method Retain(c: Checkpoint, ghost origin: Origin)
      requires c.id.number == |order|
      modifies this`checkpoints, this`disk, this`order, this`origins
      ensures (order, Known().Keys) == Created(old(order), old(Known()).Keys, c.id.run, maxCheckpoints)
      ensures forall id :: id in Known() ==>
        Some(Known()[id]) == if id == c.id then Some(c) else Lookup(old(Known()), id)
      ensures origins == old(origins)[c.id := origin]
      ensures old(|order|) < maxCheckpoints ==> order == old(order) + [c.id] && Known() == old(Known())[c.id := c]
      ensures old(Orderly()) && old(|order|) < maxCheckpoints ==> Orderly()
      ensures old(Archived()) && AllSnapsOk(guard, large, c.snapshots, origin, guard.backups, guard.ops) ==> Archived()
      ensures old(Saved()) ==> Saved()
    {
      Store(c, origin);
      assert Known().Keys == old(Known()).Keys + {c.id};
      CleanUp();
    }

    /** Enters the checkpoint in memory, in the list and on disk. */
    method Store(c: Checkpoint, ghost origin: Origin)
      requires c.id.number == |order|
      modifies this`checkpoints, this`disk, this`order, this`origins
      ensures order == old(order) + [c.id] && Known() == old(Known())[c.id := c] &&
        origins == old(origins)[c.id := origin]
      ensures old(Orderly()) ==> Orderly()
      ensures old(Archived()) && AllSnapsOk(guard, large, c.snapshots, origin, guard.backups, guard.ops) ==> Archived()
      ensures old(Saved()) ==> Saved()
    {
      StoredTwice(disk, checkpoints, c.id, c);
      checkpoints, order, disk := checkpoints[c.id := c], order + [c.id], disk[c.id := c];
      origins := origins[c.id := origin];
    }

    /** `_cleanup_old_checkpoints`. */
    method CleanUp()
      modifies this`checkpoints, this`disk, this`order
      ensures (order, Known().Keys) == Prune(old(order), old(Known()).Keys, maxCheckpoints)
      ensures forall id :: id in Known() ==> id in old(Known()) && Known()[id] == old(Known())[id]
      ensures old(|order|) <= maxCheckpoints ==> order == old(order) && Known() == old(Known())
      ensures old(Archived()) ==> Archived()
      ensures old(Saved()) ==> Saved()
    {
      while |order| > maxCheckpoints
        invariant Prune(order, Known().Keys, maxCheckpoints) == Prune(old(order), old(Known()).Keys, maxCheckpoints)
        invariant forall id :: id in Known() ==> id in old(Known()) && Known()[id] == old(Known())[id]
        invariant old(|order|) <= maxCheckpoints ==> order == old(order) && Known() == old(Known())
        invariant old(Saved()) ==> Saved()
        decreases |order|
      {
        ghost var keys := Known().Keys;
        var oldest := order[0];
        order := order[1..];
        Forget(oldest);
        assert Known().Keys == keys - {oldest};
      }
    }

    /** Deletes a checkpoint from memory and from disk. */
    method Forget(id: CheckpointId)
      modifies this`checkpoints, this`disk
      ensures Known() == old(Known()) - {id} && (old(Saved()) ==> Saved())
    {
      if id in checkpoints { checkpoints := checkpoints - {id}; }
      if id in disk { disk := disk - {id}; }
    }

    /** `_restore_file`; any exception makes it fail. */
    method RestoreFile(p: Path, s: FileSnapshot) returns (ok: bool)
      modifies guard`ops, guard`files
      ensures guard.ops >= old(guard.ops) && (!ok ==> !guard.Smooth(old(guard.ops)))
      ensures guard.files == if ok then RestoreOne(old(guard.files), p, s, guard.backups) else old(guard.files)
    {
      if !s.existed {
        var there := guard.Exists(p);
        if there == Raised {
          assert guard.refuses(guard.ops - 1);
          return false;
        }
        if there == Yes {
          ok := guard.Delete(p);
          assert !ok ==> guard.refuses(guard.ops - 1);
          return;
        }
        assert guard.files - {p} == guard.files;
        return true;
      }
      if s.content.Some? {
        ok := guard.Write(p, s.content.value);
        assert !ok ==> guard.refuses(guard.ops - 1);
        return;
      }
      if s.backup.Some? && s.backup.value in guard.backups {
        ok := guard.Write(p, guard.backups[s.backup.value]);
        assert !ok ==> guard.refuses(guard.ops - 1);
        return;
      }
      return true;
    }

    /** Restores the paths one by one, in any order, until one fails. */
    method RestoreFiles(snapshots: Snapshots) returns (ok: bool)
      modifies guard`ops, guard`files
      ensures guard.ops >= old(guard.ops) && (!ok ==> !guard.Smooth(old(guard.ops)))
      ensures ok ==> RestoredAll(old(guard.files), guard.files, snapshots, guard.backups)
      ensures forall p ::
        Lookup(guard.files, p) in
        {old(Lookup(guard.files, p)), Restored(old(guard.files), snapshots, guard.backups, p)}
    {
      var rest := snapshots.Keys;
      ghost var start, before := guard.ops, guard.files;
      while rest != {}
        invariant rest <= snapshots.Keys && guard.ops >= start
        invariant forall p ::
          Lookup(guard.files, p) ==
            if p in rest then Lookup(before, p) else Restored(before, snapshots, guard.backups, p)
        decreases rest
      {
        var p :| p in rest;
        RestoreOneExact(before, guard.files, snapshots, guard.backups, p);
        ok := RestoreFile(p, snapshots[p]);
        if !ok { return; }
        rest := rest - {p};
      }
      return true;
    }

    /** `rollback_to`. What the checkpoint gives back is what it took of the files of its creation. */
    method RollbackTo(id: CheckpointId) returns (o: RollbackOutcome, ghost idx: nat)
      modifies this`checkpoints, this`disk, this`order, guard`ops, guard`files
      ensures guard.ops >= old(guard.ops)
      ensures o == NotFound <==> id !in old(Known())
      ensures guard.Smooth(old(guard.ops)) ==> o != RestoreFailed
      ensures o == RolledBack ==> RestoredAll(old(guard.files), guard.files, old(Known())[id].snapshots, guard.backups)
      ensures o == RolledBack && old(Archived()) ==> id in origins
      ensures o == RolledBack && old(Archived()) ==>
        GivenBack(guard, large, old(Known())[id].snapshots, origins[id], old(guard.files), guard.files, old(guard.ops))
      ensures o != RolledBack ==> order == old(order) && Known() == old(Known())
      ensures o == NotFound ==> guard.files == old(guard.files)
      ensures o == RestoreFailed ==> forall p ::
        Lookup(guard.files, p) in
        {old(Lookup(guard.files, p)), Restored(old(guard.files), old(Known())[id].snapshots, guard.backups, p)}
      ensures o == RolledBack && id in old(order) ==> CutAt(old(order), old(Known()), id, idx, order, Known())
      ensures o == RolledBack && id !in old(order) ==> order == old(order) && Known() == old(Known())
      ensures o == RolledBack && old(Orderly()) ==> Orderly() && id in Known()
      ensures forall x :: x in Known() ==> x in old(Known()) && Known()[x] == old(Known())[x]
      ensures old(Archived()) ==> Archived()
      ensures old(Saved()) ==> Saved()
    {
      if id !in checkpoints && id !in disk { return NotFound, 0; }
      ghost var all, b, n, before := Known(), guard.backups, guard.ops, guard.files;
      var checkpoint := if id in checkpoints then checkpoints[id] else disk[id];
      var ok := RestoreFiles(checkpoint.snapshots);
      if ArchiveOk(guard, large, all, origins, b, n) {
        if ok { RestoredIsGivenBack(guard, large, all[id].snapshots, origins[id], before, guard.files, b, n); }
        ArchiveStays(guard, large, all, all, origins, b, n, b, guard.ops);
      }
      idx := 0;
      if !ok { return RestoreFailed, 0; }
      if id in order { idx := DropAfter(id); }
      if ArchiveOk(guard, large, all, origins, b, guard.ops) {
        ArchiveStays(guard, large, all, Known(), origins, b, guard.ops, b, guard.ops);
      }
      return RolledBack, idx;
    }

    /** `list.index`. */
    method IndexOf(id: CheckpointId) returns (idx: nat)
      requires id in order
      ensures idx < |order| && order[idx] == id && id !in order[..idx]
    {
      idx := 0;
      while order[idx] != id
        invariant idx < |order| && id !in order[..idx]
        decreases |order| - idx
      {
        assert order == order[..idx + 1] + order[idx + 1..] && order[..idx + 1] == order[..idx] + [order[idx]];
        idx := idx + 1;
      }
    }

    /** Removes the checkpoints after the first one called `id`. */
    method DropAfter(id: CheckpointId) returns (ghost at: nat)
      requires id in order
      modifies this`checkpoints, this`disk, this`order
      ensures CutAt(old(order), old(Known()), id, at, order, Known())
      ensures old(Orderly()) ==> Orderly() && id in Known()
      ensures old(Saved()) ==> Saved()
    {
      var idx := IndexOf(id);
      ghost var all := Known();
      var later := order[idx + 1..];
      for k := 0 to |later|
        invariant order == old(order)
        invariant Known() == all - Elements(later[..k])
        invariant old(Saved()) ==> Saved()
      {
        assert later[..k + 1] == later[..k] + [later[k]];
        Forget(later[k]);
      }
      assert later[..|later|] == later;
      if Listed(order, all) { CutListed(order, all, Known(), idx + 1); }
      order := order[..idx + 1];
      at := idx;
    }
  }

  /** What the rest of the system may do between a checkpoint and a rollback: edit files through the
      guard, with backups of its own, and create or return to other checkpoints. */
  datatype Command =
    | Create(run: string, modified: seq<Path>)
    | WriteFile(path: Path, content: string)
    | DeleteFile(path: Path)
    | BackUpFile(path: Path)
    | ReturnTo(id: CheckpointId)

  function Creations(commands: seq<Command>): nat {
    if commands == [] then 0
    else Creations(commands[..|commands| - 1]) + if commands[|commands| - 1].Create? then 1 else 0
  }

  lemma {:induction false} MoreCreations(commands: seq<Command>, k: nat)
    requires k <= |commands|
    ensures Creations(commands[..k]) <= Creations(commands)
    decreases |commands| - k
  {
    if k < |commands| {
      assert commands[..k + 1][..k] == commands[..k];
      MoreCreations(commands, k + 1);
    } else {
      assert commands[..k] == commands;
    }
  }

  /** No command returns to a checkpoint before number `n`. */
  predicate ReturnsFrom(commands: seq<Command>, n: nat) {
    forall i :: 0 <= i < |commands| && commands[i].ReturnTo? ==> commands[i].id.number >= n
  }

  /** The checkpoint `c` with its origin is retained, as number `n` of the list. */
  ghost predicate Retains(order: seq<CheckpointId>, known: map<CheckpointId, Checkpoint>,
                          origins: map<CheckpointId, Origin>, c: Checkpoint, o: Origin, n: nat) {
    && Listed(order, known) && n < |order| && order[n] == c.id
    && c.id in known && known[c.id] == c && c.id in origins && origins[c.id] == o
  }

  method Perform(m: RollbackManager, command: Command, ghost c: Checkpoint, ghost o: Origin, ghost n: nat)
    requires m.Archived() && m.Saved() && Retains(m.order, m.Known(), m.origins, c, o, n)
    requires command.Create? ==> |m.order| < m.maxCheckpoints
    requires command.ReturnTo? ==> command.id.number >= n
    modifies m, m.guard
    ensures m.Archived() && m.Saved() && Retains(m.order, m.Known(), m.origins, c, o, n)
    ensures |m.order| <= old(|m.order|) + if command.Create? then 1 else 0
    ensures m.guard.ops >= old(m.guard.ops)
  {
    ghost var b, a := m.guard.backups, m.guard.ops;
    match command {
      case Create(run, modified) =>
        var next := m.CreateCheckpoint(run, modified);
        assert next.id !in old(m.order);
      case ReturnTo(id) =>
        var r, _ := m.RollbackTo(id);
      case WriteFile(path, content) =>
        var ok := m.guard.Write(path, content);
        ArchiveStays(m.guard, m.large, m.Known(), m.Known(), m.origins, b, a, m.guard.backups, m.guard.ops);
      case DeleteFile(path) =>
        var ok := m.guard.Delete(path);
        ArchiveStays(m.guard, m.large, m.Known(), m.Known(), m.origins, b, a, m.guard.backups, m.guard.ops);
      case BackUpFile(path) =>
        var ok, name := m.guard.CreateBackup(path);
        assert forall n :: Unused(m.guard, n, a, m.guard.ops) ==> n != m.guard.backupName(a);
        ArchiveStays(m.guard, m.large, m.Known(), m.Known(), m.origins, b, a, m.guard.backups, m.guard.ops);
    }
  }

  /** Between a checkpoint and the return to it anything may happen: edits, backups, other checkpoints
      and returns to them, as long as none is pruned and no return goes further back. What comes back is
      what was there when the checkpoint was created, even if the process starts anew before the return;
      with nothing refused and no backup name used twice that is the whole map, exactly if only
      snapshotted paths have changed. */
  method CheckpointWorkReturn(m: RollbackManager, run: string, modified: seq<Path>, commands: seq<Command>,
                              restart: bool)
    returns (r: RollbackOutcome, c: Checkpoint, ghost o: Origin, ghost before: Files, ghost now: nat)
    requires m.Archived() && m.Orderly() && m.Saved() && |m.order| + 1 + Creations(commands) <= m.maxCheckpoints
    requires ReturnsFrom(commands, |m.order|)
    modifies m, m.guard
    ensures r != NotFound && c.snapshots.Keys == (set p | p in modified) && o.files == old(m.guard.files)
    ensures r == RolledBack ==> GivenBack(m.guard, m.large, c.snapshots, o, before, m.guard.files, now)
    ensures m.guard.Smooth(old(m.guard.ops)) && NamesDistinct(m.guard, old(m.guard.ops), m.guard.ops) ==>
      && r == RolledBack && (forall p :: p in modified ==> Lookup(m.guard.files, p) == Lookup(o.files, p))
      && (m.guard.files == o.files <==> forall p :: p !in modified ==> Lookup(before, p) == Lookup(o.files, p))
  {
    ghost var start, n := m.guard.ops, |m.order|;
    c := m.CreateCheckpoint(run, modified);
    o := m.origins[c.id];
    for k := 0 to |commands|
      invariant m.Archived() && m.Saved() && Retains(m.order, m.Known(), m.origins, c, o, n)
      invariant |m.order| <= n + 1 + Creations(commands[..k]) && m.guard.ops >= start
    {
      assert commands[..k + 1][..k] == commands[..k];
      MoreCreations(commands, k + 1);
      Perform(m, commands[k], c, o, n);
    }
    before, now := m.guard.files, m.guard.ops;
    ghost var backups := m.guard.backups;
    assert AllSnapsOk(m.guard, m.large, c.snapshots, o, backups, now);
    var manager := m;
    if restart { manager := new RollbackManager(m.guard, m.maxCheckpoints, m.large, m.disk, m.origins); }
    assert manager.Archived() && Lookup(manager.Known(), c.id) == Some(c) && manager.origins == m.origins;
    ghost var at;
    r, at := manager.RollbackTo(c.id);
    if m.guard.Smooth(start) && NamesDistinct(m.guard, start, m.guard.ops) {
      CalmReturn(m.guard, m.large, c.snapshots, o, backups, start, now, before, m.guard.files);
      assert forall p :: p in modified <==> p in c.snapshots;
    }
  }

  /** A successful return deletes every checkpoint listed behind the one returned to: none of them is
      found again, not even by a new process over the same directory. */
  method DroppedForGood(m: RollbackManager, j: nat, k: nat, restart: bool)
    returns (r: RollbackOutcome, again: RollbackOutcome)
    requires m.Saved() && j < k < |m.order|
    modifies m, m.guard
    ensures r == RolledBack ==> again == NotFound
    ensures r == NotFound <==> old(m.order[j] !in m.Known())
  {
    var id, later := m.order[j], m.order[k];
    ghost var order, idx := m.order, 0;
    r, idx := m.RollbackTo(id);
    if r != RolledBack { return r, r; }
    Occurs(order, id, idx, j);
    assert later == order[idx + 1..][k - idx - 1];
    var manager := m;
    if restart { manager := new RollbackManager(m.guard, m.maxCheckpoints, m.large, m.disk, m.origins); }
    again, idx := manager.RollbackTo(later);
  }

  lemma Occurs<T>(s: seq<T>, x: T, i: nat, j: nat)
    requires i <= |s| && j < |s| && s[j] == x
    ensures i <= j || x in s[..i]
  {
    if j < i { assert s[..i][j] == x; }
  }
}
