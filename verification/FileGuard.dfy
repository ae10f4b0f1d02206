/**
  The file guard as the diff engine and the rollback manager see it: a map from paths to contents,
  whose operations may be refused for any reason.
 */
module FileGuards {

  type Path = string
  type Files = map<Path, string>

  /** A text, no such file, or an exception of another kind. */
  datatype ReadResult = Text(content: string) | Missing | Refused

  datatype Answer = Yes | No | Raised

  class FileGuard {
    /** Whether the operation with this number is refused: rate limit, policy, or the disk. */
    const refuses: nat -> bool
    /** The name a backup made at this operation gets: a time stamp, so names may repeat. */
    const backupName: nat -> string
    var ops: nat
    var files: Files
    var backups: map<string, string>

    constructor (refuses: nat -> bool, backupName: nat -> string, files: Files)
      ensures this.files == files && this.refuses == refuses && ops == 0
    {
      this.refuses, this.backupName, this.files := refuses, backupName, files;
      ops, backups := 0, map[];
    }

    /** None of the operations from number `a` up to `b` was refused. */
    ghost predicate Calm(a: nat, b: nat) {
      forall k {:trigger refuses(k)} :: a <= k < b ==> !refuses(k)
    }

    /** No operation from number `first` up to now was refused. */
    ghost predicate Smooth(first: nat)
      reads this`ops
    {
      Calm(first, ops)
    }

    method Read(path: Path) returns (r: ReadResult)
      modifies this`ops
      ensures ops == old(ops) + 1
      ensures r == if refuses(old(ops)) then Refused else if path in files then Text(files[path]) else Missing
    {
      ops := ops + 1;
      return if refuses(ops - 1) then Refused else if path in files then Text(files[path]) else Missing;
    }

    method Exists(path: Path) returns (r: Answer)
      modifies this`ops
      ensures ops == old(ops) + 1
      ensures r == if refuses(old(ops)) then Raised else if path in files then Yes else No
    {
      ops := ops + 1;
      return if refuses(ops - 1) then Raised else if path in files then Yes else No;
    }

    method Write(path: Path, content: string) returns (ok: bool)
      modifies this`ops, this`files
      ensures ops == old(ops) + 1 && (ok <==> !refuses(old(ops)))
      ensures files == if ok then old(files)[path := content] else old(files)
    {
      ops := ops + 1;
      if refuses(ops - 1) { return false; }
      files := files[path := content];
      return true;
    }

    method Delete(path: Path) returns (ok: bool)
      modifies this`ops, this`files
      ensures ops == old(ops) + 1 && (ok <==> !refuses(old(ops)) && path in old(files))
      ensures files == if ok then old(files) - {path} else old(files)
    {
      ops := ops + 1;
      if refuses(ops - 1) || path !in files { return false; }
      files := files - {path};
      return true;
    }

    /** Copies the file under a name of its own; an older backup of that name is overwritten. */
    method CreateBackup(path: Path) returns (ok: bool, name: string)
      modifies this`ops, this`backups
      ensures ops == old(ops) + 1 && name == backupName(old(ops))
      ensures ok <==> !refuses(old(ops)) && path in files
      ensures backups == if ok then old(backups)[name := files[path]] else old(backups)
    {
      ops := ops + 1;
      name := backupName(ops - 1);
      if refuses(ops - 1) || path !in files { return false, name; }
      backups := backups[name := files[path]];
      return true, name;
    }
  }
}
