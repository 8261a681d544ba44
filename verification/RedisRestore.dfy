/**
 Restoring a Redis dump (internal/domain/database/backup.go): a sequence of file and
 container steps, each of which may fail, with a deferred rollback.

 `Faults` says beforehand which steps fail and how, so that the outcome can be stated
 for every way things can go wrong.
 */
module RedisRestore {
  import opened Common

  type Bytes = seq<bv8>

  type Files = map<string, Bytes>

  /** A write succeeds, fails before the file is touched, or after `n` bytes. */
  datatype WriteFault = Writes | NotOpened | Partly(n: nat)

  datatype Aof = Unknown | On | Off

  datatype Faults = Faults(noInstance: bool, aof: Aof, readBackup: bool, readDump: bool, keepDump: WriteFault,
                           stop: bool, dropKept: bool, writeTemp: WriteFault, rename: bool, dropTemp: bool,
                           start: bool, readKept: bool, writeBack: WriteFault, dropDump: bool)

  datatype Read = Content(bytes: Bytes) | Absent | Unreadable

  /** What the caller is told; `undoFailed` is the part the rollback adds. */
  datatype Outcome = Restored | Refused(undoFailed: bool)

  function KeptPath(dump: string): string {
    dump + ".pre-restore"
  }

  function TempPath(dump: string, nanos: nat): string {
    dump + ".tmp." + Decimal(nanos)
  }

  lemma PathsDiffer(dump: string, nanos: nat)
    ensures KeptPath(dump) != dump && TempPath(dump, nanos) != dump && KeptPath(dump) != TempPath(dump, nanos)
  {
    hide Decimal;
    assert KeptPath(dump)[|dump| + 1] == 'p' && TempPath(dump, nanos)[|dump| + 1] == 't';
    assert |KeptPath(dump)| > |dump| && |TempPath(dump, nanos)| > |dump|;
  }

  function Written(files: Files, path: string, data: Bytes, fault: WriteFault): Files {
    match fault
    case Writes => files[path := data]
    case NotOpened => files
    case Partly(n) => files[path := if n <= |data| then data[..n] else data]
  }

  class Disk {
    var files: Files

    constructor (files: Files)
      ensures this.files == files
    {
      this.files := files;
    }

    method ReadFile(path: string, fault: bool) returns (r: Read)
      ensures r == if fault then Unreadable else if path in files then Content(files[path]) else Absent
    {
      if fault {
        return Unreadable;
      }
      r := if path in files then Content(files[path]) else Absent;
    }

    method WriteFile(path: string, data: Bytes, fault: WriteFault) returns (ok: bool)
      modifies this
      ensures files == Written(old(files), path, data, fault) && ok == fault.Writes?
    {
      match fault {
        case Writes => files := files[path := data];
        case NotOpened =>
        case Partly(n) => files := files[path := if n <= |data| then data[..n] else data];
      }
      ok := fault.Writes?;
    }

    method Rename(source: string, target: string, fault: bool) returns (ok: bool)
      requires source in files && source != target
      modifies this
      ensures ok == !fault
      ensures files == if fault then old(files) else old(files)[target := old(files)[source]] - {source}
    {
      if fault {
        return false;
      }
      files := files[target := files[source]] - {source};
      ok := true;
    }

    method Remove(path: string, fault: bool) returns (ok: bool)
      modifies this
      ensures ok == !fault
      ensures files == if fault then old(files) else old(files) - {path}
    {
      if !fault {
        files := files - {path};
      }
      ok := !fault;
    }
  }

  // ---- What can be said beforehand ----

  /** The backup takes the dump's place. */
  predicate Swaps(files: Files, dump: string, backup: string, f: Faults) {
    && !f.noInstance && f.aof != On
    && backup in files && !f.readBackup
    && !f.readDump && (dump in files ==> f.keepDump.Writes?)
    && !f.stop && f.writeTemp.Writes? && !f.rename
  }

  /** What the rollback leaves in the dump's place; None if no file. */
  function Undone(files: Files, dump: string, backup: string, f: Faults): Option<Bytes>
    requires backup in files
  {
    if dump in files then
      if f.readKept then Some(files[backup])
      else
        match f.writeBack
        case Writes => Some(files[dump])
        case NotOpened => Some(files[backup])
        case Partly(n) => Some(if n <= |files[dump]| then files[dump][..n] else files[dump])
    else if f.dropDump then Some(files[backup])
    else None
  }

  function At(files: Files, path: string): Option<Bytes> {
    if path in files then Some(files[path]) else None
  }

  /** The rollback's own steps work. */
  predicate UndoWorks(files: Files, dump: string, f: Faults) {
    if dump in files then !f.readKept && f.writeBack.Writes? else !f.dropDump
  }

  lemma UndoRestores(files: Files, dump: string, backup: string, f: Faults)
    requires backup in files
    ensures UndoWorks(files, dump, f) ==> Undone(files, dump, backup, f) == At(files, dump)
    ensures (dump in files ==> files[dump] != files[backup] && (f.writeBack.Partly? ==> f.writeBack.n < |files[dump]|)) ==>
              (Undone(files, dump, backup, f) == At(files, dump) <==> UndoWorks(files, dump, f))
  {
    if dump in files && f.writeBack.Partly? && f.writeBack.n < |files[dump]| {
      assert |files[dump][..f.writeBack.n]| < |files[dump]|;
    }
  }

  /**
   How a restore ends.  It is done exactly if the backup was swapped in and the server
   started.  Otherwise the dump is what it was, absence included, unless the swap
   happened; then it is what the rollback leaves.  No file outside the three names is
   touched.
   */
  ghost predicate Ends(before: Files, after: Files, dump: string, backup: string, nanos: nat, f: Faults, r: Outcome) {
    var swaps := Swaps(before, dump, backup, f);
    && (r.Restored? <==> swaps && !f.start)
    && (r.Restored? ==> At(after, dump) == At(before, backup) && TempPath(dump, nanos) !in after)
    && (r.Refused? ==> At(after, dump) == if swaps then Undone(before, dump, backup, f) else At(before, dump))
    && (r.Refused? ==>
          (r.undoFailed <==> swaps && !UndoWorks(before, dump, f) && !(dump in before && f.readKept)))
    && (forall p :: p !in {dump, KeptPath(dump), TempPath(dump, nanos)} ==> At(after, p) == At(before, p))
    && (r.Restored? && dump in before && !f.dropKept ==> KeptPath(dump) !in after)
    && (dump !in before ==> At(after, KeptPath(dump)) == At(before, KeptPath(dump)))
    && (r.Refused? && swaps && dump in before ==> At(after, KeptPath(dump)) == if f.dropKept then At(before, dump) else None)
  }

  /** The bytes of the old dump are still on the disk, in place or as the kept copy. */
  predicate StillThere(before: Files, after: Files, dump: string)
    requires dump in before
  {
    At(after, dump) == At(before, dump) || At(after, KeptPath(dump)) == At(before, dump)
  }

  /**
   The kept copy is removed even when the rollback failed to put it back.  So a failed
   restore keeps the old dump's bytes if and only if the dump was not replaced, or was put
   back, or the removal of the copy failed as well (contents that differ given).
   */
  lemma OldDumpSurvivesIff(before: Files, after: Files, dump: string, backup: string, nanos: nat, f: Faults, r: Outcome)
    requires Ends(before, after, dump, backup, nanos, f, r) && r.Refused? && dump in before
    ensures !Swaps(before, dump, backup, f) ==> StillThere(before, after, dump)
    ensures Swaps(before, dump, backup, f) && before[dump] != before[backup]
            && (f.writeBack.Partly? ==> f.writeBack.n < |before[dump]|) ==>
              (StillThere(before, after, dump) <==> UndoWorks(before, dump, f) || f.dropKept)
  {
    if Swaps(before, dump, backup, f) {
      UndoRestores(before, dump, backup, f);
    }
  }

  /**
   All or nothing: the restore succeeds and the dump is the backup, or it fails and, the
   rollback's own steps working, the dump is as before.  When it is not, the caller is
   told, save in one case: the kept copy cannot be read back.  Then, and only then, the
   new dump stays and the caller is not told.
   */
  lemma AllOrNothing(before: Files, after: Files, dump: string, backup: string, nanos: nat, f: Faults, r: Outcome)
    requires Ends(before, after, dump, backup, nanos, f, r)
    ensures r.Restored? ==> backup in before && dump in after && after[dump] == before[backup]
    ensures r.Refused? && UndoWorks(before, dump, f) ==> At(after, dump) == At(before, dump)
    ensures r.Refused? && At(after, dump) != At(before, dump) && !r.undoFailed ==>
              Swaps(before, dump, backup, f) && dump in before && f.readKept && At(after, dump) == At(before, backup)
    ensures r.Refused? && Swaps(before, dump, backup, f) && dump in before && f.readKept ==>
              !r.undoFailed && At(after, dump) == At(before, backup)
  {
    if backup in before {
      UndoRestores(before, dump, backup, f);
    }
  }

  /**
   A restore succeeds if and only if the instance is known and does not write its log to a
   file, backup and dump can be read, the dump could be kept, and server and disk obey.
   */
  lemma RestoredIff(before: Files, after: Files, dump: string, backup: string, nanos: nat, f: Faults, r: Outcome)
    requires Ends(before, after, dump, backup, nanos, f, r)
    ensures r.Restored? <==>
              && !f.noInstance && f.aof != On && backup in before && !f.readBackup && !f.readDump
              && (dump in before ==> f.keepDump == Writes)
              && !f.stop && f.writeTemp == Writes && !f.rename && !f.start
  {
  }

  // ---- The restore ----

  method RestoreRedis(disk: Disk, dump: string, backup: string, nanos: nat, f: Faults) returns (r: Outcome)
    modifies disk
    ensures Ends(old(disk.files), disk.files, dump, backup, nanos, f, r)
  {
    PathsDiffer(dump, nanos);
    hide KeptPath, TempPath;
    if f.noInstance || f.aof == On {
      return Refused(false);
    }
    var data := disk.ReadFile(backup, f.readBackup);
    if !data.Content? {
      return Refused(false);
    }
    var kept := KeptPath(dump);
    var hasOriginal := false;
    var original := disk.ReadFile(dump, f.readDump);
    if original.Content? {
      var ok := disk.WriteFile(kept, original.bytes, f.keepDump);
      if !ok {
        return Refused(false);
      }
      hasOriginal := true;
    } else if original.Unreadable? {
      return Refused(false);
    }
    if f.stop {
      if hasOriginal {
        var _ := disk.Remove(kept, f.dropKept);
      }
      return Refused(false);
    }
    r := SwapIn(disk, dump, data.bytes, hasOriginal, nanos, f);
  }

  /** The part under the deferred rollback, the server being stopped. */
  method SwapIn(disk: Disk, dump: string, data: Bytes, hasOriginal: bool, nanos: nat, f: Faults) returns (r: Outcome)
    requires hasOriginal ==> KeptPath(dump) in disk.files
    modifies disk
    ensures var kept, temp, was := KeptPath(dump), TempPath(dump, nanos), old(disk.files);
            var swapped := f.writeTemp.Writes? && !f.rename;
            && (r.Restored? <==> swapped && !f.start)
            && (r.Restored? ==> At(disk.files, dump) == Some(data) && temp !in disk.files)
            && (r.Refused? && !swapped ==> At(disk.files, dump) == At(was, dump) && !r.undoFailed)
            && (r.Refused? && swapped ==> At(disk.files, dump) == UndoneFrom(was, dump, hasOriginal, data, f))
            && (r.Refused? && swapped ==>
                  (r.undoFailed <==> if hasOriginal then !f.readKept && !f.writeBack.Writes? else f.dropDump))
            && (forall p :: p !in {dump, kept, temp} ==> At(disk.files, p) == At(was, p))
            && (hasOriginal && r.Restored? && !f.dropKept ==> kept !in disk.files)
            && (!hasOriginal ==> At(disk.files, kept) == At(was, kept))
            && (hasOriginal && r.Refused? ==> At(disk.files, kept) == if f.dropKept then At(was, kept) else None)
  {
    PathsDiffer(dump, nanos);
    hide KeptPath, TempPath;
    var temp := TempPath(dump, nanos);
    var written := disk.WriteFile(temp, data, f.writeTemp);
    if !written {
      // the server is started again, whether that works or not
      var _ := Undo(disk, dump, false, hasOriginal, f);
      return Refused(false);
    }
    var renamed := disk.Rename(temp, dump, f.rename);
    if !renamed {
      var _ := disk.Remove(temp, f.dropTemp);
      var _ := Undo(disk, dump, false, hasOriginal, f);
      return Refused(false);
    }
    if f.start {
      var undone := Undo(disk, dump, true, hasOriginal, f);
      return Refused(!undone);
    }
    if hasOriginal {
      var _ := disk.Remove(KeptPath(dump), f.dropKept);
    }
    r := Restored;
  }

  function UndoneFrom(files: Files, dump: string, hasOriginal: bool, data: Bytes, f: Faults): Option<Bytes>
    requires hasOriginal ==> KeptPath(dump) in files
  {
    if hasOriginal then
      if f.readKept then Some(data) else At(Written(map[dump := data], dump, files[KeptPath(dump)], f.writeBack), dump)
    else if f.dropDump then Some(data)
    else None
  }

  /** The deferred part, after a failure; `ok` is false if it has something to report. */
  method Undo(disk: Disk, dump: string, renamed: bool, hasOriginal: bool, f: Faults) returns (ok: bool)
    requires hasOriginal ==> KeptPath(dump) in disk.files
    modifies disk
    ensures ok <==> !renamed || if hasOriginal then f.readKept || f.writeBack.Writes? else !f.dropDump
    ensures var kept, files := KeptPath(dump), old(disk.files);
            var back := if !renamed then files
                        else if hasOriginal then
                          if f.readKept then files else Written(files, dump, files[kept], f.writeBack)
                        else if f.dropDump then files else files - {dump};
            disk.files == if hasOriginal && !f.dropKept then back - {kept} else back
  {
    ok := true;
    if renamed {
      if hasOriginal {
        var original := disk.ReadFile(KeptPath(dump), f.readKept);
        if original.Content? {
          ok := disk.WriteFile(dump, original.bytes, f.writeBack);
        }
      } else {
        ok := disk.Remove(dump, f.dropDump);
      }
    }
    if hasOriginal {
      var _ := disk.Remove(KeptPath(dump), f.dropKept);
    }
  }
}
