/** The filesystem the backend's handlers change, as one object: the paths
    outside the recovery zone and the zone folder's entries. Each handler is
    a method that updates the fields in the order the source does, and is
    proved to end in the state, with the reply, its step function gives. */
module Storage {
  import opened Text
  import opened Seqs
  import opened FileTree
  import EnvVars
  import opened Recovery
  import opened Deletion

  class Volume {
    var disk: map<string, Entry>
    var zone: seq<Entry>
    const zoneRoot: string

    constructor (home: string, disk0: map<string, Entry>, zone0: seq<Entry>)
      ensures zoneRoot == ZoneRoot(home) && disk == disk0 && zone == zone0
    {
      zoneRoot := ZoneRoot(home);
      disk := disk0;
      zone := zone0;
    }

    function State(): Fs
      reads this
    {
      Fs(disk, zone)
    }

    /** The move-to-recovery-zone handler. */
    method MoveToRecoveryZone(filePath: string, isDirectory: bool, stamp: string, movedAt: int, ok: bool)
      returns (r: MoveReply)
      modifies this
      ensures Step(State(), r) == MoveStep(old(State()), zoneRoot, filePath, isDirectory, stamp, movedAt, ok)
    {
      var destName := DestName(stamp, filePath);
      var originalSize := MeasuredSize(disk, filePath, isDirectory);
      if filePath !in disk {
        return MoveFailed;
      }
      var e := disk[filePath];
      if isDirectory {
        if !ok {
          return MoveFailed;
        }
        disk := disk - {filePath};
        zone := Put(zone, Renamed(e, destName));
      } else {
        if !(e.File? && e.size.Some?) {
          return MoveFailed;
        }
        zone := Put(zone, Renamed(e, destName));
        if !ok {
          return MoveFailed;
        }
        disk := disk - {filePath};
      }
      zone := Put(zone, Sidecar(destName, filePath, movedAt, originalSize, isDirectory));
      r := MovedToZone(originalSize, Join(zoneRoot, destName));
    }

    /** moveToRecoveryZone, the legacy writer. */
    method MoveToRecoveryZoneLegacy(sourcePath: string, itemId: string, stamp: string, movedAt: int)
      returns (r: LegacyMoveReply)
      modifies this
      ensures Step(State(), r) == LegacyMoveStep(old(State()), zoneRoot, sourcePath, itemId, stamp, movedAt)
    {
      var destName := itemId + "_" + stamp;
      zone := Put(zone, Dir(destName, true, []));
      if sourcePath !in disk || !disk[sourcePath].Dir? || !disk[sourcePath].listable {
        return LegacyMoveFailed;
      }
      var src := disk[sourcePath];
      var m := MoveMembers(src.children);
      disk := disk[sourcePath := Dir(src.name, true, m.left)];
      var meta := File(LEGACY_META, Some(0), MetaDoc(Meta(sourcePath, movedAt, None, None, Some(itemId))));
      zone := Put(zone, Dir(destName, true, Put(m.dest, meta)));
      r := LegacyMoved(m.size, m.count, Join(zoneRoot, destName));
    }

    /** restoreFromRecoveryZone for the zone entry called `name`. */
    method RestoreFromRecoveryZone(name: string, ok: bool) returns (r: RestoreReply)
      modifies this
      ensures Step(State(), r) == RestoreStep(old(State()), name, ok)
    {
      var side := ChildNamed(zone, name + META_SUFFIX);
      var payload := ChildNamed(zone, name);
      if side.Some? {
        var m := ReadMeta(side.value);
        if m.None? || payload.None? {
          return RestoreFailed;
        }
        r := RestoreCurrent(name, m.value, payload.value, ok);
      } else if payload.Some? && payload.value.Dir? && payload.value.listable &&
                ChildNamed(payload.value.children, LEGACY_META).Some? {
        var m := ReadMeta(ChildNamed(payload.value.children, LEGACY_META).value);
        if m.None? {
          return RestoreFailed;
        }
        r := RestoreLegacyLayout(name, m.value, payload.value);
      } else {
        r := NoMetadata;
      }
    }

    /** The current-layout branch of restoreFromRecoveryZone. */
    method RestoreCurrent(name: string, m: Meta, payload: Entry, ok: bool) returns (r: RestoreReply)
      modifies this
      ensures Step(State(), r) == RestoreNew(old(State()), name, m, payload, ok)
    {
      var orig := m.originalPath;
      var onFolder := orig in disk && disk[orig].Dir?;
      if payload.Dir? {
        if !ok {
          return RestoreFailed;
        }
        if onFolder {
          disk := disk[orig := Into(disk[orig], [payload])];
        } else {
          disk := disk[orig := Renamed(payload, BaseName(orig))];
        }
      } else {
        if !(payload.File? && payload.size.Some?) || onFolder {
          return RestoreFailed;
        }
        disk := disk[orig := Renamed(payload, BaseName(orig))];
        if !ok {
          return RestoreFailed;
        }
      }
      zone := Remove(zone, name);
      zone := Remove(zone, name + META_SUFFIX);
      r := Restored(Or0(m.size));
    }

    /** The legacy branch of restoreFromRecoveryZone. */
    method RestoreLegacyLayout(name: string, m: Meta, payload: Entry) returns (r: RestoreReply)
      requires payload.Dir?
      modifies this
      ensures Step(State(), r) == RestoreLegacy(old(State()), name, m, payload)
    {
      var orig := m.originalPath;
      if orig in disk && !disk[orig].Dir? {
        return RestoreFailed;
      }
      var moved := RestoreMembers(Existing(disk, orig), payload.children);
      var folder := if orig in disk then Into(disk[orig], moved.dest) else Dir(BaseName(orig), true, moved.dest);
      disk := disk[orig := folder];
      if moved.left == [] {
        zone := Remove(zone, name);
        r := Restored(moved.size);
      } else {
        zone := Put(zone, Dir(name, true, moved.left));
        r := RestoreFailed;
      }
    }

    /** permanentDeleteFromRecoveryZone for the zone entry called `name`;
      `left` is what a failed Remove-Item leaves of it. */
    method PermanentDelete(name: string, ok: bool, left: Option<Entry>) returns (r: DeleteReply)
      modifies this
      ensures Step(State(), r) == DeleteStep(old(State()), name, ok, left)
    {
      var payload := ChildNamed(zone, name);
      if payload.None? || StatSize(payload.value).None? {
        return DeleteFailed;
      }
      var size := StatSize(payload.value).value;
      if ChildNamed(zone, name + META_SUFFIX).Some? {
        zone := Remove(zone, name + META_SUFFIX);
      }
      if !ok {
        zone := if left.Some? then Put(zone, left.value) else Remove(zone, name);
        return DeleteFailed;
      }
      zone := Remove(zone, name);
      r := Deleted(size);
    }

    /** directDeletePath: `left` is what the PowerShell pipeline leaves at
      the expanded path. */
    method DirectDeletePath(targetPath: string, env: EnvVars.Env, home: string, left: Option<Entry>)
      returns (r: DirectReply)
      modifies this
      ensures Outcome(disk, r) == Deletion.DirectDeletePath(old(disk), targetPath, env, home, left)
      ensures zone == old(zone)
    {
      EnvVars.TablesAreTokens(env, home);
      var ep := EnvVars.ExpandEnvVars(targetPath, EnvVars.TableAsWritten(env, home), env);
      if ep !in disk {
        return DirectReply(true, 0);
      }
      var sizeBefore := DirSize(disk[ep]);
      disk := DeleteAt(disk, ep, left);
      var sizeAfter := if ep in disk then DirSize(disk[ep]) else 0;
      var freed := if sizeBefore >= sizeAfter then sizeBefore - sizeAfter else 0;
      r := DirectReply(true, freed);
    }

    /** The delete-large-file handler: `left` is what PowerShell leaves of a
      folder, `ok` whether unlink removes a file. */
    method DeleteLargeFile(filePath: string, isDirectory: bool, left: Option<Entry>, ok: bool)
      returns (r: LargeReply)
      modifies this
      ensures Outcome(disk, r) == DeleteLarge(old(disk), filePath, isDirectory, left, ok)
      ensures zone == old(zone)
    {
      var sizeBefore := MeasuredSize(disk, filePath, isDirectory);
      if filePath in disk {
        if isDirectory {
          disk := DeleteAt(disk, filePath, left);
        } else if ok && !disk[filePath].Dir? {
          disk := disk - {filePath};
        }
      }
      var sizeAfter := MeasuredSize(disk, filePath, isDirectory);
      var freed := sizeBefore as int - sizeAfter as int;
      var deleted := filePath !in disk;
      if freed > 0 || deleted {
        r := LargeDeleted(freed, deleted);
      } else {
        r := LargeDeleteFailed;
      }
    }
  }
}
