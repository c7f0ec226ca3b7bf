/** The replace and recover code as it is written, run against a schedule that says which file system call
    goes through, fails, or is the last one the process makes.  Every call is checked to be a move of
    `GeneratorMachine`, so what that machine keeps holds here at every point of every schedule. */
module OutputDirectory {
  import opened Wrappers
  import opened Bytes
  import opened OutputParent
  import opened GeneratorMachine

  /** `Torn` cuts a write short after the given bytes; on another call it acts as the failure it is. */
  datatype Fault = Proceed | IoError | Dies | Torn(bytes: seq<Byte>, dies: bool)

  datatype Outcome<+T> = Done(value: T) | Failed | Died {
    predicate IsFailure() { !Done? }

    function PropagateFailure<U>(): Outcome<U>
      requires IsFailure()
    {
      if Failed? then Failed else Died
    }

    function Extract(): T
      requires !IsFailure()
    {
      value
    }
  }

  predicate Undisturbed(faults: seq<Fault>) {
    forall i :: 0 <= i < |faults| ==> faults[i].Proceed?
  }

  /** `discover_owned_directory`: the only owned directory there is, if any; several are refused. */
  method Discover(owned: map<OwnedName, Tree>) returns (r: Outcome<Option<OwnedName>>)
    ensures r.Done? ==> Discovers(owned, r.value)
    ensures r.Done? <==> AtMostOne(owned)
    ensures !r.Died?
  {
    var candidates: seq<OwnedName>, rest := [], owned.Keys;
    while rest != {}
      invariant rest <= owned.Keys
      invariant forall n :: n in owned <==> n in rest || n in candidates
      invariant forall n :: n in candidates ==> n !in rest
      invariant forall i, j :: 0 <= i < j < |candidates| ==> candidates[i] != candidates[j]
      decreases rest
    {
      var n :| n in rest;
      candidates, rest := candidates + [n], rest - {n};
    }
    if |candidates| > 1 {
      assert candidates[0] in candidates && candidates[1] in candidates;
      return Failed;
    }
    if |candidates| == 0 {
      return Done(None);
    }
    assert owned.Keys == {candidates[0]};
    return Done(Some(candidates[0]));
  }

  /** `compare_output_directory` on the collected files: same paths, then same bytes path by path. */
  method CompareOutput(actual: Tree, expected: Tree) returns (ok: bool)
    ensures ok <==> actual == expected
  {
    if expected.Keys != actual.Keys {
      return false;
    }
    var rest := expected.Keys;
    while rest != {}
      invariant rest <= expected.Keys
      invariant forall path :: path in expected.Keys - rest ==> actual[path] == expected[path]
      decreases rest
    {
      var path :| path in rest;
      if actual[path] != expected[path] {
        return false;
      }
      rest := rest - {path};
    }
    assert actual == expected;
    return true;
  }

  class Output {
    var dir: Parent
    var faults: seq<Fault>
    ghost var failed: seq<FsCall>
    ghost var pc: Pc
    ghost var committed: Option<Tree>

    ghost predicate At(files: Tree, at: Pc)
      reads this
    {
      pc == at && Inv(files, pc, dir, committed)
    }

    /** No call that puts a backup back to the target has failed. */
    ghost predicate BackupsReturn()
      reads this
    {
      forall n :: BackupToTarget(n) !in failed
    }

    method NextFault() returns (fault: Fault)
      modifies this`faults
      ensures Undisturbed(old(faults)) ==> Undisturbed(faults) && fault == Proceed
    {
      fault := Proceed;
      if faults != [] {
        fault, faults := faults[0], faults[1..];
      }
    }

    /** A failure is that of a single call, and not of a rename to the target. */
    ghost predicate OneFailed(before: seq<FsCall>, r: Outcome<()>)
      reads this
    {
      if r.Failed? then
        && failed != [] && failed == before + [failed[|failed| - 1]]
        && !failed[|failed| - 1].BackupToTarget? && !failed[|failed| - 1].TempToTarget?
      else failed == before
    }

    /** One file system call, which takes the machine from `pc` to `next` when it goes through. */
    method Call(call: FsCall, ghost files: Tree, ghost next: Pc) returns (r: Outcome<()>)
      requires Inv(files, pc, dir, committed)
      requires Apply(call, dir).Some? ==> Moves(files, pc, dir, next, Apply(call, dir).value)
      modifies this
      ensures Inv(files, pc, dir, committed)
      ensures r.Done? ==>
                && Apply(call, old(dir)) == Some(dir) && pc == next
                && committed == Commit(old(pc), next, dir, old(committed))
      ensures failed == if r.Failed? then old(failed) + [call] else old(failed)
      ensures !r.Done? ==> dir == old(dir) && pc == old(pc) && committed == old(committed)
      ensures Undisturbed(old(faults)) ==>
                Undisturbed(faults) && !r.Died? && (r.Done? <==> Apply(call, old(dir)).Some?)
    {
      var fault := NextFault();
      if fault.Dies? {
        return Died;
      }
      var after := Apply(call, dir);
      if !fault.Proceed? || after.None? {
        failed := failed + [call];
        return Failed;
      }
      MovesKeepInv(files, pc, dir, next, after.value, committed);
      committed := Commit(pc, next, after.value, committed);
      dir, pc := after.value, next;
      return Done(());
    }

    /** A local decision of the code, without a file system call. */
    ghost method Decide(files: Tree, next: Pc)
      requires Inv(files, pc, dir, committed) && Moves(files, pc, dir, next, dir)
      requires !(pc.Install? && next.CleanUp?)
      modifies this`pc
      ensures At(files, next)
    {
      MovesKeepInv(files, pc, dir, next, dir, committed);
      pc := next;
    }

    /** The files of an owned temporary directory, one by one. */
    method EmptyTemp(n: OwnedName, ghost files: Tree) returns (r: Outcome<()>)
      requires n in dir.temps && (At(files, DropTemp(n)) || At(files, Discard(n)))
      modifies this
      ensures Inv(files, pc, dir, committed) && pc == old(pc) && committed == old(committed)
      ensures dir.target == old(dir.target) && dir.backups == old(dir.backups)
      ensures n in dir.temps && (r.Done? ==> dir.temps[n] == map[])
      ensures OneFailed(old(failed), r)
      ensures Undisturbed(old(faults)) ==> Undisturbed(faults) && r.Done?
    {
      while dir.temps[n] != map[]
        invariant Inv(files, pc, dir, committed) && pc == old(pc) && n in dir.temps
        invariant committed == old(committed) && dir.target == old(dir.target) && dir.backups == old(dir.backups)
        invariant failed == old(failed)
        invariant Undisturbed(old(faults)) ==> Undisturbed(faults)
        decreases dir.temps[n].Keys
      {
        var path :| path in dir.temps[n];
        assert Apply(UnlinkInTemp(n, path), dir).Some? ==>
          Does(UnlinkInTemp(n, path), dir, Apply(UnlinkInTemp(n, path), dir).value);
        var _ :- Call(UnlinkInTemp(n, path), files, pc);
      }
      return Done(());
    }

    /** `remove_owned_directory_if_present` on an owned temporary directory. */
    method RemoveTemp(n: OwnedName, ghost files: Tree, ghost next: Pc) returns (r: Outcome<()>)
      requires (At(files, DropTemp(n)) && next == Recovered) || (At(files, Discard(n)) && next == Finished(false))
      modifies this
      ensures Inv(files, pc, dir, committed)
      ensures committed == old(committed) && dir.target == old(dir.target) && dir.backups == old(dir.backups)
      ensures if r.Done? then pc == next && dir.temps == map[] else pc == old(pc)
      ensures OneFailed(old(failed), r)
      ensures Undisturbed(old(faults)) ==> Undisturbed(faults) && r.Done?
    {
      if n !in dir.temps {
        Decide(files, next);
        return Done(());
      }
      var _ :- EmptyTemp(n, files);
      r := Call(RemoveTempDir(n), files, next);
    }

    /** The files of an owned backup, one by one. */
    method EmptyBackup(n: OwnedName, ghost files: Tree) returns (r: Outcome<()>)
      requires n in dir.backups && (At(files, DropBackup(n)) || At(files, CleanUp(n)))
      modifies this
      ensures Inv(files, pc, dir, committed) && pc == old(pc) && committed == old(committed)
      ensures dir.target == old(dir.target) && dir.temps == old(dir.temps)
      ensures n in dir.backups && (r.Done? ==> dir.backups[n] == map[])
      ensures OneFailed(old(failed), r)
      ensures Undisturbed(old(faults)) ==> Undisturbed(faults) && r.Done?
    {
      while dir.backups[n] != map[]
        invariant Inv(files, pc, dir, committed) && pc == old(pc) && n in dir.backups
        invariant committed == old(committed) && dir.target == old(dir.target) && dir.temps == old(dir.temps)
        invariant failed == old(failed)
        invariant Undisturbed(old(faults)) ==> Undisturbed(faults)
        decreases dir.backups[n].Keys
      {
        var path :| path in dir.backups[n];
        assert Apply(UnlinkInBackup(n, path), dir).Some? ==>
          Does(UnlinkInBackup(n, path), dir, Apply(UnlinkInBackup(n, path), dir).value);
        var _ :- Call(UnlinkInBackup(n, path), files, pc);
      }
      return Done(());
    }

    /** `remove_dir_all` on an owned backup. */
    method RemoveBackup(n: OwnedName, ghost files: Tree, ghost next: Pc) returns (r: Outcome<()>)
      requires (At(files, DropBackup(n)) && next == Recovered) || (At(files, CleanUp(n)) && next == Finished(true))
      modifies this
      ensures Inv(files, pc, dir, committed)
      ensures committed == old(committed) && dir.target == old(dir.target) && dir.temps == old(dir.temps)
      ensures if r.Done? then pc == next else pc == old(pc)
      ensures OneFailed(old(failed), r)
      ensures Undisturbed(old(faults)) ==> Undisturbed(faults) && r.Done?
    {
      if n !in dir.backups {
        Decide(files, next);
        return Done(());
      }
      var _ :- EmptyBackup(n, files);
      r := Call(RemoveBackupDir(n), files, next);
    }

    /** `recover_replace_state`: undo or finish what an interrupted replacement left.  A state that no
        interruption leaves is refused and nothing in it is touched. */
    method RecoverReplaceState(ghost files: Tree) returns (r: Outcome<()>)
      requires pc == Locked && (Recoverable(dir) ==> Safe(dir, committed))
      modifies this
      ensures committed == old(committed)
      ensures if Recoverable(old(dir)) then Inv(files, pc, dir, committed)
              else r.Failed? && dir == old(dir) && failed == old(failed)
      ensures r.Done? ==> pc == Recovered && dir == Settled(committed) && failed == old(failed)
      ensures r.Failed? && Recoverable(old(dir)) ==>
                && failed != [] && failed == old(failed) + [failed[|failed| - 1]]
                && !failed[|failed| - 1].TempToTarget?
                && (!failed[|failed| - 1].BackupToTarget? ==> dir.target == committed)
      ensures Undisturbed(old(faults)) ==> Undisturbed(faults) && (r.Done? <==> Recoverable(old(dir)))
    {
      var targetExists := dir.target.Some?;
      var temp :- Discover(dir.temps);
      var backup :- Discover(dir.backups);
      if targetExists && backup.Some? && temp.Some? {
        return Failed;
      }
      Decide(files, Plan(targetExists, backup, temp));
      if backup.Some? {
        if targetExists {
          r := RemoveBackup(backup.value, files, Recovered);
        } else {
          r := Call(BackupToTarget(backup.value), files, pc.AfterRestore());
          if r.Done? && temp.Some? {
            r := RemoveTemp(temp.value, files, Recovered);
          }
        }
      } else if temp.Some? {
        r := RemoveTemp(temp.value, files, Recovered);
      } else {
        r := Done(());
      }
    }

    /** A write that is cut short, by a failure or by death. */
    method WriteTorn(n: OwnedName, existed: bool, todo: set<string>, path: string, files: Tree) returns (r: Outcome<()>)
      requires At(files, Writing(n, existed, todo)) && path in todo && faults != [] && faults[0].Torn?
      modifies this
      ensures Inv(files, pc, dir, committed) && committed == old(committed) && !r.Done?
      ensures r.Failed? ==> dir.target == committed
      ensures OneFailed(old(failed), r)
    {
      var torn := WriteTemp(n, path, faults[0].bytes);
      var fault := faults[0];
      faults := [Proceed] + faults[1..];
      assert Does(torn, dir, Apply(torn, dir).value);
      var _ :- Call(torn, files, pc);
      if fault.dies {
        return Died;
      }
      failed := failed + [WriteTemp(n, path, files[path])];
      return Failed;
    }

    /** The loop that fills the temporary directory. */
    method WriteAll(n: OwnedName, existed: bool, files: Tree) returns (r: Outcome<()>)
      requires At(files, Writing(n, existed, files.Keys))
      modifies this
      ensures Inv(files, pc, dir, committed) && committed == old(committed)
      ensures r.Done? ==> pc == MoveAway(n, existed)
      ensures r.Failed? ==> dir.target == committed
      ensures OneFailed(old(failed), r)
      ensures Undisturbed(old(faults)) ==> Undisturbed(faults) && r.Done?
    {
      var todo := files.Keys;
      while todo != {}
        invariant At(files, Writing(n, existed, todo)) && committed == old(committed) && failed == old(failed)
        invariant Undisturbed(old(faults)) ==> Undisturbed(faults)
        decreases todo
      {
        var path :| path in todo;
        if faults != [] && faults[0].Torn? {
          r := WriteTorn(n, existed, todo, path, files);
          return;
        }
        var whole := WriteTemp(n, path, files[path]);
        assert Does(whole, dir, Apply(whole, dir).value);
        var _ :- Call(whole, files, Writing(n, existed, todo - {path}));
        todo := todo - {path};
      }
      Decide(files, MoveAway(n, existed));
      return Done(());
    }

    /** A new temporary directory with all the files. */
    method BuildTemp(n: OwnedName, existed: bool, files: Tree) returns (r: Outcome<()>)
      requires At(files, Recovered) && existed == dir.target.Some?
      modifies this
      ensures Inv(files, pc, dir, committed) && committed == old(committed)
      ensures r.Done? ==> pc == MoveAway(n, existed)
      ensures r.Failed? ==> dir.target == committed
      ensures OneFailed(old(failed), r)
      ensures Undisturbed(old(faults)) ==> Undisturbed(faults) && r.Done?
    {
      var _ :- Call(CreateTemp(n), files, Writing(n, existed, files.Keys));
      r := WriteAll(n, existed, files);
    }

    /** The temporary directory could not be renamed to the target: put the backup back, drop the rest. */
    method RollBackInstall(n: OwnedName, ghost files: Tree) returns (r: Outcome<()>)
      requires At(files, RollBack(n))
      modifies this
      ensures Inv(files, pc, dir, committed) && committed == old(committed) && !r.Done?
      ensures old(failed) <= failed
      ensures r.Failed? && BackupToTarget(n) !in failed[|old(failed)|..] ==> dir.target == committed
      ensures r.Failed? && failed == old(failed) ==> dir == Settled(committed)
      ensures Undisturbed(old(faults)) ==> r.Failed? && failed == old(failed)
    {
      if n in dir.backups {
        var restored := Call(BackupToTarget(n), files, Discard(n));
        if restored.Died? {
          return Died;
        }
        if restored.Failed? {
          Decide(files, Discard(n));
        } else {
          assert dir.target == committed && dir.backups == map[];
        }
      } else {
        Decide(files, Discard(n));
        assert dir.target == committed && dir.backups == map[];
      }
      ghost var start, before := |old(failed)|, failed;
      var discarded := RemoveTemp(n, files, Finished(false));
      assert |before| > start ==> failed[start..][0] == before[start];
      return if discarded.Died? then Died else Failed;
    }

    /** The first rename, which an absent target does without. */
    method MoveTargetAside(n: OwnedName, existed: bool, ghost files: Tree) returns (r: Outcome<()>)
      requires At(files, MoveAway(n, existed))
      modifies this
      ensures Inv(files, pc, dir, committed) && committed == old(committed)
      ensures r.Done? ==> pc == Install(n)
      ensures r.Failed? ==> dir.target == committed
      ensures OneFailed(old(failed), r)
      ensures Undisturbed(old(faults)) ==> Undisturbed(faults) && r.Done?
    {
      if existed {
        r := Call(TargetToBackup(n), files, Install(n));
      } else {
        Decide(files, Install(n));
        r := Done(());
      }
    }

    /** The second rename, rolled back when it fails. */
    method InstallTemp(n: OwnedName, ghost files: Tree) returns (r: Outcome<()>)
      requires At(files, Install(n))
      modifies this
      ensures Inv(files, pc, dir, committed)
      ensures if r.Done? then pc == CleanUp(n) && committed == Some(files) && failed == old(failed)
              else committed == old(committed)
      ensures r.Failed? ==> old(failed) + [TempToTarget(n)] <= failed
      ensures r.Failed? && BackupToTarget(n) !in failed[|old(failed)|..] ==> dir.target == committed
      ensures r.Failed? && failed == old(failed) + [TempToTarget(n)] ==> dir == Settled(committed)
      ensures Undisturbed(old(faults)) ==> Undisturbed(faults) && r.Done?
    {
      r := Call(TempToTarget(n), files, CleanUp(n));
      if r.Failed? {
        Decide(files, RollBack(n));
        r := RollBackInstall(n, files);
      }
    }

    /** The two renames and the removal of the backup. */
    method Swap(n: OwnedName, existed: bool, ghost files: Tree) returns (r: Outcome<()>)
      requires At(files, MoveAway(n, existed))
      modifies this
      ensures Inv(files, pc, dir, committed)
      ensures committed == old(committed) || committed == Some(files)
      ensures r.Done? ==> pc == Finished(true) && committed == Some(files) && failed == old(failed)
      ensures r.Failed? ==> old(failed) < failed
      ensures r.Failed? && BackupToTarget(n) !in failed[|old(failed)|..] ==> dir.target == committed
      ensures r.Failed? && TempToTarget(n) in failed[|old(failed)|..] ==> committed == old(committed)
      ensures r.Failed? && failed == old(failed) + [TempToTarget(n)] ==> dir == Settled(committed)
      ensures Undisturbed(old(faults)) ==> r.Done?
    {
      var _ :- MoveTargetAside(n, existed, files);
      var _ :- InstallTemp(n, files);
      r := RemoveBackup(n, files, Finished(true));
    }

    /** `recoverable_replace_directory`, from the moment the exclusive lock is held.  An error that is reported
        leaves the committed tree in the target, unless putting the backup back is itself what failed; when the
        installing rename is all that failed, the parent is as recovery left it. */
    method RecoverableReplaceDirectory(files: Tree, n: OwnedName) returns (r: Outcome<()>)
      requires pc == Locked && failed == [] && (Recoverable(dir) ==> Safe(dir, committed))
      modifies this
      ensures if Recoverable(old(dir)) then Safe(dir, committed) else r.Failed? && dir == old(dir)
      ensures committed == old(committed) || committed == Some(files)
      ensures r.Done? ==> committed == Some(files) && dir == Settled(Some(files)) && failed == []
      ensures r.Failed? && Recoverable(old(dir)) ==> failed != [] && (BackupsReturn() ==> dir.target == committed)
      ensures r.Failed? && TempToTarget(n) in failed ==> committed == old(committed)
      ensures r.Failed? && failed == [TempToTarget(n)] ==> dir == Settled(old(committed))
      ensures Undisturbed(old(faults)) ==> (r.Done? <==> Recoverable(old(dir)))
    {
      var _ :- RecoverReplaceState(files);
      var targetExists := dir.target.Some?;
      if n in dir.temps {
        return Failed;
      }
      var _ :- BuildTemp(n, targetExists, files);
      if n in dir.backups {
        return Failed;
      }
      r := Swap(n, targetExists, files);
    }

    /** `ensure_replace_state_clean`. */
    method EnsureReplaceStateClean() returns (ok: bool)
      ensures ok <==> dir.temps == map[] && dir.backups == map[]
    {
      var temp := Discover(dir.temps);
      if !temp.Done? {
        return false;
      }
      var backup := Discover(dir.backups);
      if !backup.Done? {
        return false;
      }
      return temp.value.None? && backup.value.None?;
    }

    /** `check`, from the moment the shared lock is held: it passes exactly on a finished installation of the
        expected files. */
    method Check(expected: Tree) returns (ok: bool)
      ensures ok <==> dir == Settled(Some(expected))
    {
      var clean := EnsureReplaceStateClean();
      if !clean || dir.target.None? {
        return false;
      }
      ok := CompareOutput(dir.target.value, expected);
    }
  }
}
