/**
  What a snapshot of a file is worth: how it was taken, what other operations of the guard leave of
  it, and what restoring it gives back.
 */
module SnapshotSpec {
  import opened Options
  import opened FileGuards

  /** A file as it was; large ones are kept as the name of a backup. */
  datatype FileSnapshot = FileSnapshot(existed: bool, content: Option<string>, backup: Option<string>)

  type Snapshots = map<Path, FileSnapshot>

  /** The guard operations that took a snapshot, from `first` to `last`. */
  datatype Span = Span(first: nat, last: nat)

  /** The files when a checkpoint was created, and how each of its snapshots was taken. */
  datatype Origin = Origin(files: Files, spans: map<Path, Span>)

  const ABSENT := FileSnapshot(false, None, None)

  function Lookup<K, V>(m: map<K, V>, k: K): Option<V> {
    if k in m then Some(m[k]) else None
  }

  /** The content a snapshot can give back. */
  function Stored(s: FileSnapshot, backups: map<string, string>): Option<string> {
    if s.content.Some? then s.content
    else if s.backup.Some? then Lookup(backups, s.backup.value)
    else None
  }

  /** The snapshot tells exactly how the file is. */
  predicate Exact(s: FileSnapshot, files: Files, backups: map<string, string>, p: Path) {
    if p in files then s.existed && Stored(s, backups) == Some(files[p]) else !s.existed
  }

  ghost predicate AllExact(snapshots: Snapshots, files: Files, backups: map<string, string>) {
    forall p {:trigger p in snapshots} :: p in snapshots ==> Exact(snapshots[p], files, backups, p)
  }

  /** What restoring makes of a path; a lost backup leaves it alone. */
  function Restored(files: Files, snapshots: Snapshots, backups: map<string, string>, p: Path): Option<string> {
    if p !in snapshots then Lookup(files, p)
    else if !snapshots[p].existed then None
    else if Stored(snapshots[p], backups).Some? then Stored(snapshots[p], backups)
    else Lookup(files, p)
  }

  ghost predicate RestoredAll(before: Files, after: Files, snapshots: Snapshots, backups: map<string, string>) {
    forall p {:trigger Lookup(after, p)} :: Lookup(after, p) == Restored(before, snapshots, backups, p)
  }

  /** Restoring exact snapshots gives every snapshotted path its content back, or its absence; and
      the whole map exactly if nothing else has changed. */
  lemma RestoreGivesBack(earlier: Files, now: Files, after: Files, snapshots: Snapshots, backups: map<string, string>)
    requires AllExact(snapshots, earlier, backups) && RestoredAll(now, after, snapshots, backups)
    ensures forall p {:trigger p in snapshots} :: p in snapshots ==> Lookup(after, p) == Lookup(earlier, p)
    ensures after == earlier <==> forall p :: p !in snapshots ==> Lookup(now, p) == Lookup(earlier, p)
  {
    forall p
      ensures Lookup(after, p) == if p in snapshots then Lookup(earlier, p) else Lookup(now, p)
    {
      assert Lookup(after, p) == Restored(now, snapshots, backups, p);
      if p in snapshots { assert Exact(snapshots[p], earlier, backups, p); }
    }
    if forall p :: p !in snapshots ==> Lookup(now, p) == Lookup(earlier, p) {
      SameFiles(after, earlier);
    }
  }

  lemma SameFiles(a: Files, b: Files)
    requires forall p :: Lookup(a, p) == Lookup(b, p)
    ensures a == b
  {
    forall p
      ensures p in a <==> p in b
      ensures p in a && p in b ==> a[p] == b[p]
    {
      assert Lookup(a, p) == Lookup(b, p);
    }
  }

  /** No operation of this span was refused. */
  ghost predicate Unrefused(g: FileGuard, s: Span) {
    g.Calm(s.first, s.last + 1)
  }

  /** None of the operations from number `a` up to `b` names a backup so. */
  ghost predicate Unused(g: FileGuard, name: string, a: nat, b: nat) {
    forall j {:trigger g.backupName(j)} :: a <= j < b ==> g.backupName(j) != name
  }

  /** The snapshot of `p` still holds what was taken: kept inline, or as a backup whose name no
      operation has used again before number `now`. */
  ghost predicate Intact(g: FileGuard, large: string -> bool, o: Origin, p: Path, now: nat)
    requires p in o.files && p in o.spans
  {
    large(o.files[p]) ==> Unused(g, g.backupName(o.spans[p].last), o.spans[p].last + 1, now)
  }

  /** The snapshot `s` of `p`, at operation number `now`: a file that was there and whose operations
      were not refused has been kept, any other path counts as absent. */
  ghost predicate SnapOk(g: FileGuard, large: string -> bool, s: FileSnapshot, o: Origin, p: Path,
                         backups: map<string, string>, now: nat) {
    && p in o.spans && o.spans[p].first <= o.spans[p].last < now
    && if p in o.files && Unrefused(g, o.spans[p]) then
         && s.existed
         && (if large(o.files[p]) then s.content.None? && s.backup == Some(g.backupName(o.spans[p].last))
             else s.content == Some(o.files[p]))
         && (Intact(g, large, o, p, now) ==> Stored(s, backups) == Some(o.files[p]))
       else s == ABSENT
  }

  ghost predicate AllSnapsOk(g: FileGuard, large: string -> bool, snapshots: Snapshots, o: Origin,
                             backups: map<string, string>, now: nat) {
    forall p {:trigger p in snapshots} :: p in snapshots ==> SnapOk(g, large, snapshots[p], o, p, backups, now)
  }

  /** What the operations from number `a` up to `b` may have done to the backups: each may have
      overwritten the one it names. */
  ghost predicate Evolved(g: FileGuard, before: map<string, string>, a: nat, after: map<string, string>, b: nat) {
    a <= b && forall n {:trigger Lookup(after, n)} :: Unused(g, n, a, b) ==> Lookup(after, n) == Lookup(before, n)
  }

  lemma EvolvedOn(g: FileGuard, x: map<string, string>, a: nat, y: map<string, string>, b: nat,
                  z: map<string, string>, c: nat)
    requires Evolved(g, x, a, y, b) && Evolved(g, y, b, z, c)
    ensures Evolved(g, x, a, z, c)
  {
    forall n | Unused(g, n, a, c)
      ensures Lookup(z, n) == Lookup(x, n)
    {
      assert Unused(g, n, a, b) && Unused(g, n, b, c);
      assert Lookup(y, n) == Lookup(x, n);
    }
  }

  /** A snapshot stays what it was, whatever the guard does later. */
  lemma SnapStays(g: FileGuard, large: string -> bool, s: FileSnapshot, o: Origin, p: Path,
                  before: map<string, string>, a: nat, after: map<string, string>, b: nat)
    requires SnapOk(g, large, s, o, p, before, a) && Evolved(g, before, a, after, b)
    ensures SnapOk(g, large, s, o, p, after, b)
  {
    if p in o.files && Unrefused(g, o.spans[p]) && Intact(g, large, o, p, b) && large(o.files[p]) {
      var name := g.backupName(o.spans[p].last);
      assert Unused(g, name, a, b);
      assert Lookup(after, name) == Lookup(before, name);
    }
  }

  lemma AllSnapsStay(g: FileGuard, large: string -> bool, snapshots: Snapshots, o: Origin,
                     before: map<string, string>, a: nat, after: map<string, string>, b: nat)
    requires AllSnapsOk(g, large, snapshots, o, before, a) && Evolved(g, before, a, after, b)
    ensures AllSnapsOk(g, large, snapshots, o, after, b)
  {
    forall p | p in snapshots
      ensures SnapOk(g, large, snapshots[p], o, p, after, b)
    {
      SnapStays(g, large, snapshots[p], o, p, before, a, after, b);
    }
  }

  /** One more snapshot of the same files. */
  lemma SnapAdded(g: FileGuard, large: string -> bool, snapshots: Snapshots, o: Origin, p: Path,
                  s: FileSnapshot, span: Span, backups: map<string, string>, now: nat)
    requires AllSnapsOk(g, large, snapshots, o, backups, now)
    requires SnapOk(g, large, s, Origin(o.files, map[p := span]), p, backups, now)
    ensures AllSnapsOk(g, large, snapshots[p := s], o.(spans := o.spans[p := span]), backups, now)
  {
    var all, next := snapshots[p := s], o.(spans := o.spans[p := span]);
    forall q | q in all
      ensures SnapOk(g, large, all[q], next, q, backups, now)
    {
      if q != p { assert SnapOk(g, large, snapshots[q], o, q, backups, now); }
    }
  }

  /** What restoring at operation number `now` gives back of one path: its content, or its absence; but
      a file one of whose snapshot operations was refused is deleted. */
  ghost predicate BackAt(g: FileGuard, large: string -> bool, o: Origin, p: Path, after: Files, now: nat)
    requires p in o.spans
  {
    if p in o.files && Unrefused(g, o.spans[p]) then
      Intact(g, large, o, p, now) ==> Lookup(after, p) == Some(o.files[p])
    else p !in after
  }

  /** What restoring all snapshots gives back: what they hold, and no other path moves. */
  ghost predicate GivenBack(g: FileGuard, large: string -> bool, snapshots: Snapshots, o: Origin,
                            before: Files, after: Files, now: nat) {
    forall p {:trigger Lookup(after, p)} ::
      if p in snapshots then p in o.spans && BackAt(g, large, o, p, after, now)
      else Lookup(after, p) == Lookup(before, p)
  }

  lemma RestoredIsGivenBack(g: FileGuard, large: string -> bool, snapshots: Snapshots, o: Origin,
                            before: Files, after: Files, backups: map<string, string>, now: nat)
    requires AllSnapsOk(g, large, snapshots, o, backups, now) && RestoredAll(before, after, snapshots, backups)
    ensures GivenBack(g, large, snapshots, o, before, after, now)
  {
    forall p
      ensures if p in snapshots then p in o.spans && BackAt(g, large, o, p, after, now)
              else Lookup(after, p) == Lookup(before, p)
    {
      assert Lookup(after, p) == Restored(before, snapshots, backups, p);
      if p in snapshots { assert SnapOk(g, large, snapshots[p], o, p, backups, now); }
    }
  }

  /** For a file that was there when the checkpoint was created, and whose snapshot is intact: restoring
      gives it back if and only if no operation of its snapshot was refused; a refused one deletes it. */
  lemma BackIfUnrefused(g: FileGuard, large: string -> bool, snapshots: Snapshots, o: Origin,
                        before: Files, after: Files, now: nat, p: Path)
    requires GivenBack(g, large, snapshots, o, before, after, now) && p in snapshots && p in o.files
    requires p in o.spans && Intact(g, large, o, p, now)
    ensures Lookup(after, p) == Lookup(o.files, p) <==> Unrefused(g, o.spans[p])
    ensures !Unrefused(g, o.spans[p]) ==> p !in after
  {
    assert Lookup(after, p) == if p in after then Some(after[p]) else None;
  }

  ghost predicate AllIntact(g: FileGuard, large: string -> bool, snapshots: Snapshots, o: Origin, now: nat) {
    forall p {:trigger p in snapshots} ::
      p in snapshots && p in o.files ==> p in o.spans && Intact(g, large, o, p, now)
  }

  /** With all snapshots intact the whole map is back if and only if no file's snapshot was refused
      and every path that has changed since is among the snapshots. */
  lemma WholeMapBack(g: FileGuard, large: string -> bool, snapshots: Snapshots, o: Origin,
                     before: Files, after: Files, now: nat)
    requires GivenBack(g, large, snapshots, o, before, after, now) && AllIntact(g, large, snapshots, o, now)
    ensures after == o.files <==>
      && (forall p {:trigger p in snapshots} :: p in snapshots && p in o.files ==> Unrefused(g, o.spans[p]))
      && forall p :: p !in snapshots ==> Lookup(before, p) == Lookup(o.files, p)
  {
    forall p | p in snapshots && p in o.files
      ensures Lookup(after, p) == Lookup(o.files, p) <==> Unrefused(g, o.spans[p])
    {
      BackIfUnrefused(g, large, snapshots, o, before, after, now, p);
    }
    if after == o.files {
      forall p | p !in snapshots
        ensures Lookup(before, p) == Lookup(o.files, p)
      {
        assert Lookup(after, p) == Lookup(o.files, p);
      }
    } else if forall p :: p !in snapshots ==> Lookup(before, p) == Lookup(o.files, p) {
      if forall p :: p in snapshots && p in o.files ==> Unrefused(g, o.spans[p]) {
        forall p
          ensures Lookup(after, p) == Lookup(o.files, p)
        {
        }
        SameFiles(after, o.files);
      }
    }
  }

  /** With nothing refused and no backup name repeated every snapshot is exact. */
  lemma CalmIsExact(g: FileGuard, large: string -> bool, snapshots: Snapshots, o: Origin,
                    backups: map<string, string>, start: nat, now: nat)
    requires AllSnapsOk(g, large, snapshots, o, backups, now) && TakenFrom(o, start)
    requires g.Calm(start, now) && NamesDistinct(g, start, now)
    ensures AllExact(snapshots, o.files, backups) && AllIntact(g, large, snapshots, o, now)
  {
    forall p | p in snapshots
      ensures Exact(snapshots[p], o.files, backups, p)
      ensures p in o.files ==> p in o.spans && Intact(g, large, o, p, now)
    {
      assert SnapOk(g, large, snapshots[p], o, p, backups, now);
      assert start <= o.spans[p].first;
    }
  }

  lemma CalmSnapshots(g: FileGuard, large: string -> bool, snapshots: Snapshots, o: Origin,
                      backups: map<string, string>, start: nat, now: nat)
    requires AllSnapsOk(g, large, snapshots, o, backups, now) && TakenFrom(o, start)
    ensures g.Calm(start, now) && NamesDistinct(g, start, now) ==>
      AllExact(snapshots, o.files, backups) && AllIntact(g, large, snapshots, o, now)
  {
    if g.Calm(start, now) && NamesDistinct(g, start, now) {
      CalmIsExact(g, large, snapshots, o, backups, start, now);
    }
  }

  /** Restoring after a calm time: every snapshotted path is as it was, and the whole map exactly if no
      other path has changed. */
  lemma CalmReturn(g: FileGuard, large: string -> bool, snapshots: Snapshots, o: Origin,
                   backups: map<string, string>, start: nat, now: nat, before: Files, after: Files)
    requires AllSnapsOk(g, large, snapshots, o, backups, now) && TakenFrom(o, start)
    requires g.Calm(start, now) && NamesDistinct(g, start, now)
    requires GivenBack(g, large, snapshots, o, before, after, now)
    ensures forall p :: p in snapshots ==> Lookup(after, p) == Lookup(o.files, p)
    ensures after == o.files <==> forall p :: p !in snapshots ==> Lookup(before, p) == Lookup(o.files, p)
  {
    CalmIsExact(g, large, snapshots, o, backups, start, now);
    forall p | p in snapshots
      ensures Lookup(after, p) == Lookup(o.files, p)
      ensures p in o.files ==> Unrefused(g, o.spans[p])
    {
      assert SnapOk(g, large, snapshots[p], o, p, backups, now);
      assert start <= o.spans[p].first;
      assert Lookup(after, p) == if p in after then Some(after[p]) else None;
    }
    WholeMapBack(g, large, snapshots, o, before, after, now);
  }

  ghost predicate TakenFrom(o: Origin, start: nat) {
    forall p {:trigger p in o.spans} :: p in o.spans ==> start <= o.spans[p].first
  }

  /** The operations from `a` up to `b` would name their backups differently. */
  ghost predicate NamesDistinct(g: FileGuard, a: nat, b: nat) {
    forall i, j {:trigger g.backupName(i), g.backupName(j)} ::
      a <= i < b && a <= j < b && g.backupName(i) == g.backupName(j) ==> i == j
  }

  function RestoreOne(files: Files, p: Path, s: FileSnapshot, backups: map<string, string>): Files {
    if !s.existed then files - {p}
    else if Stored(s, backups).Some? then files[p := Stored(s, backups).value]
    else files
  }

  /** Restoring one path settles it and no other. */
  lemma RestoreOneExact(before: Files, now: Files, snapshots: Snapshots, backups: map<string, string>, p: Path)
    requires p in snapshots && Lookup(now, p) == Lookup(before, p)
    ensures var next := RestoreOne(now, p, snapshots[p], backups);
      && Lookup(next, p) == Restored(before, snapshots, backups, p)
      && forall q :: q != p ==> Lookup(next, q) == Lookup(now, q)
  {
  }
}
