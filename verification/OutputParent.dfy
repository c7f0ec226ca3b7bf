/** The parent directory of the generated Web output, and the file system calls made on it.

    The parent holds the output directory `target`, the owned temporary directories
    (`.generated.tmp-PID-NONCE`) and the owned backups (`.generated.old-PID-NONCE`).  A directory is the
    map from its relative file paths to their bytes. */
module OutputParent {
  import opened Wrappers
  import opened Bytes

  type Tree = map<string, seq<Byte>>

  datatype OwnedName = OwnedName(pid: nat, nonce: nat)

  datatype Parent = Parent(target: Option<Tree>, temps: map<OwnedName, Tree>, backups: map<OwnedName, Tree>)

  /** One file system call.  A write may leave any bytes behind when it is cut short. */
  datatype FsCall =
    | CreateTemp(name: OwnedName)
    | WriteTemp(name: OwnedName, path: string, bytes: seq<Byte>)
    | TargetToBackup(name: OwnedName)
    | TempToTarget(name: OwnedName)
    | BackupToTarget(name: OwnedName)
    | UnlinkInTemp(name: OwnedName, path: string)
    | RemoveTempDir(name: OwnedName)
    | UnlinkInBackup(name: OwnedName, path: string)
    | RemoveBackupDir(name: OwnedName)

  /** A directory can be renamed onto a missing or an empty one. */
  predicate Replaceable(d: Option<Tree>) {
    d.None? || d.value == map[]
  }

  /** The parent after a call that went through; `None` when the call cannot go through. */
  function Apply(call: FsCall, d: Parent): Option<Parent> {
    match call
    case CreateTemp(n) =>
      if n in d.temps then None else Some(d.(temps := d.temps[n := map[]]))
    case WriteTemp(n, path, bytes) =>
      if n in d.temps then Some(d.(temps := d.temps[n := d.temps[n][path := bytes]])) else None
    case TargetToBackup(n) =>
      if d.target.Some? && n !in d.backups
      then Some(d.(target := None, backups := d.backups[n := d.target.value])) else None
    case TempToTarget(n) =>
      if n in d.temps && Replaceable(d.target)
      then Some(d.(target := Some(d.temps[n]), temps := d.temps - {n})) else None
    case BackupToTarget(n) =>
      if n in d.backups && Replaceable(d.target)
      then Some(d.(target := Some(d.backups[n]), backups := d.backups - {n})) else None
    case UnlinkInTemp(n, path) =>
      if n in d.temps && path in d.temps[n]
      then Some(d.(temps := d.temps[n := d.temps[n] - {path}])) else None
    case RemoveTempDir(n) =>
      if n in d.temps && d.temps[n] == map[] then Some(d.(temps := d.temps - {n})) else None
    case UnlinkInBackup(n, path) =>
      if n in d.backups && path in d.backups[n]
      then Some(d.(backups := d.backups[n := d.backups[n] - {path}])) else None
    case RemoveBackupDir(n) =>
      if n in d.backups && d.backups[n] == map[] then Some(d.(backups := d.backups - {n})) else None
  }

  ghost predicate AtMostOne(owned: map<OwnedName, Tree>) {
    forall m, n :: m in owned && n in owned ==> m == n
  }

  /** A state that recovery accepts: at most one owned directory of each kind, not both beside a target. */
  ghost predicate Recoverable(d: Parent) {
    AtMostOne(d.temps) && AtMostOne(d.backups) && !(d.target.Some? && d.temps != map[] && d.backups != map[])
  }

  /** What recovery must be able to rely on, whatever was interrupted: no ambiguous or multiple owned
      directories, and the last committed tree whole, in `target` or else in the only backup. */
  ghost predicate Safe(d: Parent, committed: Option<Tree>) {
    && Recoverable(d)
    && (d.target.Some? ==> committed == d.target)
    && (d.target.None? && d.backups == map[] ==> committed.None?)
    && (d.target.None? ==> forall n :: n in d.backups ==> committed == Some(d.backups[n]))
  }

  /** Safety for some committed tree is exactly what recovery accepts, and the tree is then determined. */
  lemma RecoverableIffSafe(d: Parent)
    ensures Recoverable(d) <==> exists committed :: Safe(d, committed)
    ensures forall a, b :: Safe(d, a) && Safe(d, b) ==> a == b
  {
    if Recoverable(d) {
      if d.target.Some? || d.backups == map[] {
        assert Safe(d, d.target);
      } else {
        var n :| n in d.backups;
        assert Safe(d, Some(d.backups[n]));
      }
    }
  }

  /** The state a finished recovery leaves: the committed tree and no owned directory. */
  function Settled(committed: Option<Tree>): Parent {
    Parent(committed, map[], map[])
  }

  /** Owned directories and the files in them. */
  ghost function Weight(owned: map<OwnedName, Tree>): nat
    decreases |owned|
  {
    if owned == map[] then 0 else
      var n :| n in owned;
      1 + |owned[n]| + Weight(owned - {n})
  }

  ghost function Litter(d: Parent): nat {
    Weight(d.temps) + Weight(d.backups)
  }

  lemma WeightOfOne(owned: map<OwnedName, Tree>, n: OwnedName)
    requires AtMostOne(owned) && n in owned
    ensures owned - {n} == map[]
    ensures Weight(owned) == 1 + |owned[n]|
  {
    assert forall m :: m in owned ==> m == n;
    assert owned - {n} == map[];
    var k :| k in owned && Weight(owned) == 1 + |owned[k]| + Weight(owned - {k});
  }
}
