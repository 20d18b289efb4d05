/** The main process's `delete-image` and `undelete-image` handlers: a deleted file
    is copied into a quarantine directory under its base name and then unlinked;
    undeleting copies it back and unlinks the quarantine copy. The filesystem is a
    map from file paths to contents. */
module Quarantine {
  import opened Wrappers
  import opened Paths

  type Bytes = seq<bv8>
  type Files = map<Path, Bytes>

  /** Which of the two file operations of a handler fail for reasons outside the
      model (permissions, a full disk, a device error). */
  datatype IoFaults = IoFaults(copyFails: bool, unlinkFails: bool)

  const NoFaults := IoFaults(false, false)

  /** `path.join(deletedFilesDir, path.basename(p))`: where `p` is kept while deleted. */
  function QuarantinePath(deletedFilesDir: string, p: string): Path
  {
    Join(deletedFilesDir, Basename(p))
  }

  /** `fs.copyFile(src, dst)`: fails when `src` is not a file, otherwise `dst` gets
      `src`'s content (replacing whatever was there). */
  function Copy(files: Files, src: Path, dst: Path): (r: Option<Files>)
    ensures r.Some? <==> src in files
    ensures r.Some? ==> r.value.Keys == files.Keys + {dst} && r.value[dst] == files[src]
    ensures r.Some? ==> forall q :: q in files && q != dst ==> q in r.value && r.value[q] == files[q]
  {
    if src in files then Some(files[dst := files[src]]) else None
  }

  /** `fs.unlink(p)`: fails when `p` is not a file, otherwise removes it. */
  function Unlink(files: Files, p: Path): (r: Option<Files>)
    ensures r.Some? <==> p in files
    ensures r.Some? ==> r.value.Keys == files.Keys - {p}
    ensures r.Some? ==> forall q :: q in r.value ==> r.value[q] == files[q]
  {
    if p in files then Some(files - {p}) else None
  }

  /** The outcome of `delete-image` for `p` with quarantine path `t`: the new
      files and, on success, `t` (`{ success: true, tempPath }`). */
  function DeleteSpec(files: Files, p: Path, t: Path, mkdirFails: bool, faults: IoFaults): (Files, Option<Path>)
  {
    if mkdirFails then (files, None)
    else
      match Copy(files, p, t)
      case None => (files, None)
      case Some(copied) =>
        if faults.copyFails then (files, None)
        else
          match Unlink(copied, p)
          case None => (copied, None)
          case Some(unlinked) => if faults.unlinkFails then (copied, None) else (unlinked, Some(t))
  }

  /** The outcome of `undelete-image` for `p` with quarantine path `t`: the new
      files and `success`. */
  function UndeleteSpec(files: Files, p: Path, t: Path, faults: IoFaults): (Files, bool)
  {
    match Copy(files, t, p)
    case None => (files, false)
    case Some(copied) =>
      if faults.copyFails then (files, false)
      else
        match Unlink(copied, t)
        case None => (copied, false)
        case Some(unlinked) => if faults.unlinkFails then (copied, false) else (unlinked, true)
  }

  class FileSystem {
    var files: Files
    /** `path.join(app.getPath('temp'), 'image-viewer-deleted')`. */
    const deletedFilesDir: Path

    constructor(initial: Files, quarantine: Path)
      ensures files == initial && deletedFilesDir == quarantine
    {
      files := initial;
      deletedFilesDir := quarantine;
    }

    /** The `delete-image` handler. */
    method DeleteImage(filePath: Path, mkdirFails: bool, faults: IoFaults) returns (tempPath: Option<Path>)
      modifies this`files
      ensures (files, tempPath) == DeleteSpec(old(files), filePath, QuarantinePath(deletedFilesDir, filePath), mkdirFails, faults)
    {
      var target := QuarantinePath(deletedFilesDir, filePath);
      if mkdirFails {
        return None;
      }
      var copied := Copy(files, filePath, target);
      if copied.None? || faults.copyFails {
        return None;
      }
      files := copied.value;
      var unlinked := Unlink(files, filePath);
      if unlinked.None? || faults.unlinkFails {
        return None;
      }
      files := unlinked.value;
      return Some(target);
    }

    /** The `undelete-image` handler. */
    method UndeleteImage(originalPath: Path, faults: IoFaults) returns (success: bool)
      modifies this`files
      ensures (files, success) == UndeleteSpec(old(files), originalPath, QuarantinePath(deletedFilesDir, originalPath), faults)
    {
      var source := QuarantinePath(deletedFilesDir, originalPath);
      var copied := Copy(files, source, originalPath);
      if copied.None? || faults.copyFails {
        return false;
      }
      files := copied.value;
      var unlinked := Unlink(files, source);
      if unlinked.None? || faults.unlinkFails {
        return false;
      }
      files := unlinked.value;
      return true;
    }
  }

  /** Deleting succeeds exactly when the file exists and no step fails; then the
      file is gone and its content sits at the quarantine path, and no other file
      changes. */
  lemma DeleteMovesToQuarantine(files: Files, p: Path, t: Path, mkdirFails: bool, faults: IoFaults)
    requires t != p
    ensures var (after, reply) := DeleteSpec(files, p, t, mkdirFails, faults);
      reply.Some? <==> p in files && !mkdirFails && faults == NoFaults
    ensures var (after, reply) := DeleteSpec(files, p, t, mkdirFails, faults);
      reply.Some? ==> reply.value == t && after == files[t := files[p]] - {p}
  {
  }

  /** A delete that fails before the unlink leaves every file as it was; one whose
      unlink fails reports failure with the file both in place and copied. */
  lemma FailedDeleteKeepsFile(files: Files, p: Path, t: Path, mkdirFails: bool, faults: IoFaults)
    ensures var (after, reply) := DeleteSpec(files, p, t, mkdirFails, faults);
      (mkdirFails || p !in files || faults.copyFails) ==> after == files && reply.None?
    ensures var (after, reply) := DeleteSpec(files, p, t, mkdirFails, faults);
      (!mkdirFails && p in files && !faults.copyFails && faults.unlinkFails) ==>
        reply.None? && after == files[t := files[p]]
  {
  }

  /** Undeleting fails without changing anything when nothing is quarantined at
      the file's quarantine path. */
  lemma UndeleteWithoutCopyFails(files: Files, p: Path, t: Path, faults: IoFaults)
    requires t !in files
    ensures UndeleteSpec(files, p, t, faults) == (files, false)
  {
  }

  /** Deleting and then undeleting a file restores it with its content and leaves
      every other file as before, except that a quarantine file at the same path
      left by an earlier delete is gone. */
  lemma {:induction false} DeleteThenUndelete(files: Files, p: Path, t: Path)
    requires p in files && t != p
    ensures var (deleted, reply) := DeleteSpec(files, p, t, false, NoFaults);
      var (restored, success) := UndeleteSpec(deleted, p, t, NoFaults);
      reply.Some? && success && restored == files - {t}
  {
    var deleted := files[t := files[p]] - {p};
    assert DeleteSpec(files, p, t, false, NoFaults).0 == deleted;
    var restored := deleted[p := deleted[t]] - {t};
    assert UndeleteSpec(deleted, p, t, NoFaults) == (restored, true);
    assert restored == files - {t};
  }

  /** Two files with the same base name share one quarantine slot: after both are
      deleted, undeleting the first writes the SECOND file's content back to the
      first file's path, and reports success. */
  lemma {:induction false} SameBasenameOverwrites(files: Files, dir: string, a: Path, b: Path)
    requires a in files && b in files && a != b
    requires Basename(a) == Basename(b)
    requires QuarantinePath(dir, a) != a && QuarantinePath(dir, b) != b
    ensures var t := QuarantinePath(dir, a);
      var (first, _) := DeleteSpec(files, a, t, false, NoFaults);
      var (second, _) := DeleteSpec(first, b, QuarantinePath(dir, b), false, NoFaults);
      var (restored, success) := UndeleteSpec(second, a, t, NoFaults);
      success && a in restored && restored[a] == files[b]
  {
    SharedSlotOverwrites(files, a, b, QuarantinePath(dir, a));
  }

  lemma {:induction false} SharedSlotOverwrites(files: Files, a: Path, b: Path, t: Path)
    requires a in files && b in files && a != b && t != a && t != b
    ensures var (first, _) := DeleteSpec(files, a, t, false, NoFaults);
      var (second, _) := DeleteSpec(first, b, t, false, NoFaults);
      var (restored, success) := UndeleteSpec(second, a, t, NoFaults);
      success && a in restored && restored[a] == files[b]
  {
    var first := files[t := files[a]] - {a};
    assert DeleteSpec(files, a, t, false, NoFaults).0 == first;
    assert b in first && first[b] == files[b];
    var second := first[t := first[b]] - {b};
    assert DeleteSpec(first, b, t, false, NoFaults).0 == second;
    assert t in second && second[t] == files[b];
  }

  /** A file that already lies at its own quarantine path is copied onto itself
      and then unlinked: the handler reports success and the content is lost. */
  lemma DeletingQuarantinedFileLosesIt(files: Files, p: Path)
    requires p in files
    ensures var (after, reply) := DeleteSpec(files, p, p, false, NoFaults);
      reply == Some(p) && after == files - {p}
  {
  }
}
