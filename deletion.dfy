/** The two deleting handlers of the backend: directDeletePath, which empties
    a folder named by a path with environment tokens (electron/main.js:675-710),
    and delete-large-file, which removes one file or folder the scanner found
    (electron/main.js:1150-1212). Both measure before and after and report
    the difference. What PowerShell or unlink actually removes is an input:
    `left` is what remains at the path afterwards (None when the path is
    gone), `ok` says whether unlink succeeded. */
module Deletion {
  import opened Text
  import opened FileTree
  import EnvVars

  /** The disk with the entry at `p` replaced by what remains of it. */
  function DeleteAt(disk: map<string, Entry>, p: string, left: Option<Entry>): map<string, Entry>
  {
    if left.Some? then disk[p := left.value] else disk - {p}
  }

  /** A delete only removes: what remains at `p` is the old entry with some
      entries taken out at any depth, or nothing. */
  ghost predicate OnlyRemoves(disk: map<string, Entry>, p: string, left: Option<Entry>)
  {
    left.Some? ==> p in disk && Pruned(left.value, disk[p])
  }

  datatype Outcome<R> = Outcome(disk: map<string, Entry>, reply: R)

  /** directDeletePath always reports success, with the bytes freed. */
  datatype DirectReply = DirectReply(success: bool, freedSpace: nat)

  /** directDeletePath after expansion: a missing path frees nothing; else
      the folder is measured, its contents removed as far as they go, and
      measured again; the difference is clamped at 0. */
  function DirectDelete(disk: map<string, Entry>, ep: string, left: Option<Entry>): Outcome<DirectReply>
  {
    if ep !in disk then Outcome(disk, DirectReply(true, 0))
    else
      var before := DirSize(disk[ep]);
      var after := if left.Some? then DirSize(left.value) else 0;
      Outcome(DeleteAt(disk, ep, left), DirectReply(true, if before >= after then before - after else 0))
  }

  /** directDeletePath(targetPath), expanding the environment tokens as
      the handler does, `%TMP%` included. */
  function DirectDeletePath(disk: map<string, Entry>, targetPath: string, env: EnvVars.Env, home: string,
                            left: Option<Entry>): Outcome<DirectReply>
  {
    DirectDelete(disk, EnvVars.ExpandAsWritten(targetPath, env, home), left)
  }

  /** directDeletePath with `%TMP%` falling back to the Temp folder. */
  function DirectDeletePathCorrected(disk: map<string, Entry>, targetPath: string, env: EnvVars.Env, home: string,
                                     left: Option<Entry>): Outcome<DirectReply>
  {
    DirectDelete(disk, EnvVars.Expand(targetPath, env, home), left)
  }

  /** The reply to delete-large-file: success carries the signed difference
      of the two measurements and whether the path is gone. */
  datatype LargeReply = LargeDeleted(freedSpace: int, deleted: bool) | LargeDeleteFailed

  /** The disk after delete-large-file's removal step: a folder goes through
      PowerShell, a file through unlink, which cannot remove a folder. */
  function LargeRemoval(disk: map<string, Entry>, p: string, isDirectory: bool,
                        left: Option<Entry>, ok: bool): map<string, Entry>
  {
    if p !in disk then disk
    else if isDirectory then DeleteAt(disk, p, left)
    else if ok && !disk[p].Dir? then disk - {p}
    else disk
  }

  /** delete-large-file: measure, remove, measure again; success when
      something was freed or the path is gone. */
  function DeleteLarge(disk: map<string, Entry>, p: string, isDirectory: bool,
                       left: Option<Entry>, ok: bool): Outcome<LargeReply>
  {
    var before := MeasuredSize(disk, p, isDirectory);
    var disk' := LargeRemoval(disk, p, isDirectory, left, ok);
    var freed := before - MeasuredSize(disk', p, isDirectory);
    var deleted := p !in disk';
    Outcome(disk', if freed > 0 || deleted then LargeDeleted(freed, deleted) else LargeDeleteFailed)
  }

  /** directDeletePath frees exactly what the folder lost: the clamp at 0
      never applies when the delete only removes; nothing else on the disk
      changes. */
  lemma DirectDeleteFrees(disk: map<string, Entry>, ep: string, left: Option<Entry>)
    requires OnlyRemoves(disk, ep, left)
    ensures var o := DirectDelete(disk, ep, left);
      o.reply.success &&
      (ep !in disk ==> o.disk == disk && o.reply.freedSpace == 0) &&
      (ep in disk ==> o.reply.freedSpace + (if left.Some? then DirSize(left.value) else 0) == DirSize(disk[ep])) &&
      (forall q :: q != ep ==> (q in o.disk <==> q in disk) && (q in disk ==> o.disk[q] == disk[q]))
  {
    if left.Some? {
      PrunedSizeLe(left.value, disk[ep]);
    }
  }

  /** A path without `%` is deleted as given. */
  lemma DirectDeletePlainPath(disk: map<string, Entry>, targetPath: string, env: EnvVars.Env, home: string,
                              left: Option<Entry>)
    requires '%' !in targetPath
    ensures DirectDeletePath(disk, targetPath, env, home, left) == DirectDelete(disk, targetPath, left)
    ensures DirectDeletePathCorrected(disk, targetPath, env, home, left) == DirectDelete(disk, targetPath, left)
  {
    EnvVars.WithoutPercentUnchanged(targetPath, env, home);
  }

  /** As written, a `%TMP%` path with TMP unset or empty and TEMP missing is aimed at
      the relative path "undefined..." rather than the Temp folder; the
      corrected handler empties the Temp folder. */
  lemma DirectDeleteTmpUnset(disk: map<string, Entry>, name: string, rest: string, env: EnvVars.Env,
                             home: string, left: Option<Entry>)
    requires EnvVars.SameSpelling(name, "TMP") && '%' !in rest
    requires EnvVars.Get(env, "TMP").None? && "TEMP" !in env
    requires '%' !in home
    ensures DirectDeletePath(disk, EnvVars.Token(name) + rest, env, home, left) ==
      DirectDelete(disk, "undefined" + rest, left)
    ensures DirectDeletePathCorrected(disk, EnvVars.Token(name) + rest, env, home, left) ==
      DirectDelete(disk, EnvVars.TempDefault(home) + rest, left)
  {
    var t := EnvVars.Token(name) + rest;
    assert EnvVars.ExpandAsWritten(t, env, home) == "undefined" + rest by {
      EnvVars.TmpUndefinedAsWritten(name, rest, env, home);
    }
    assert EnvVars.Expand(t, env, home) == EnvVars.TempDefault(home) + rest by {
      EnvVars.TempDefaultNoPercent(home);
      EnvVars.TmpFallsBackLikeTemp(name, rest, env, home);
    }
  }

  /** delete-large-file never reports a negative or an invented amount when
      the removal only removes: 0 <= freed <= the size measured before. */
  lemma LargeFreedBounds(disk: map<string, Entry>, p: string, isDirectory: bool, left: Option<Entry>, ok: bool)
    requires OnlyRemoves(disk, p, left)
    ensures var o := DeleteLarge(disk, p, isDirectory, left, ok);
      o.reply.LargeDeleted? ==> 0 <= o.reply.freedSpace <= MeasuredSize(disk, p, isDirectory)
  {
    if p in disk && isDirectory && left.Some? {
      PrunedSizeLe(left.value, disk[p]);
    }
  }

  /** A path that does not exist is reported as deleted, with nothing freed. */
  lemma LargeMissingSucceeds(disk: map<string, Entry>, p: string, isDirectory: bool, left: Option<Entry>, ok: bool)
    requires p !in disk
    ensures DeleteLarge(disk, p, isDirectory, left, ok) == Outcome(disk, LargeDeleted(0, true))
  {
  }

  /** Removing the whole entry reports it deleted with its full size. */
  lemma LargeWhollyRemoved(disk: map<string, Entry>, p: string, isDirectory: bool, ok: bool)
    requires p in disk && (isDirectory || (ok && !disk[p].Dir?))
    ensures DeleteLarge(disk, p, isDirectory, None, ok) ==
      Outcome(disk - {p}, LargeDeleted(MeasuredSize(disk, p, isDirectory), true))
  {
  }

  /** A file unlink that fails, or an unlink aimed at a folder, changes
      nothing and is reported as a failure. */
  lemma LargeUnlinkFails(disk: map<string, Entry>, p: string, left: Option<Entry>, ok: bool)
    requires p in disk && (!ok || disk[p].Dir?)
    ensures DeleteLarge(disk, p, false, left, ok) == Outcome(disk, LargeDeleteFailed)
  {
  }

  /** A folder delete that leaves the folder with everything it measured
      frees nothing and is reported as a failure, although entries of size
      0 may have gone. */
  lemma LargeNothingFreedFails(disk: map<string, Entry>, p: string, left: Entry, ok: bool)
    requires p in disk && Pruned(left, disk[p]) && DirSize(left) == DirSize(disk[p])
    ensures DeleteLarge(disk, p, true, Some(left), ok) == Outcome(disk[p := left], LargeDeleteFailed)
  {
  }
}
