/** `recoverable_replace_directory` and the `recover_replace_state` it starts with, one file system call at
    a time.  The machine says which call may come next; every call may fail, and a process may die between
    any two of them. */
module GeneratorMachine {
  import opened Wrappers
  import opened OutputParent

  datatype Pc =
    | Locked                                              // the exclusive lock is held; the state is not inspected yet
    | RestoreBackup(backup: OwnedName, temp: Option<OwnedName>)
    | DropTemp(name: OwnedName)
    | DropBackup(name: OwnedName)
    | Recovered
    | Writing(name: OwnedName, existed: bool, todo: set<string>)
    | MoveAway(name: OwnedName, existed: bool)
    | Install(name: OwnedName)
    | RollBack(name: OwnedName)
    | Discard(name: OwnedName)
    | CleanUp(name: OwnedName)
    | Finished(ok: bool)
  {
    /** Where a restored backup leads: on to the temporary directory, if one was found. */
    function AfterRestore(): Pc
      requires RestoreBackup?
    {
      if temp.Some? then DropTemp(temp.value) else Recovered
    }
  }

  /** `discover_owned_directory`: more than one candidate is refused. */
  ghost predicate Discovers(owned: map<OwnedName, Tree>, found: Option<OwnedName>) {
    if found.None? then owned == map[] else owned.Keys == {found.value}
  }

  ghost predicate Ambiguous(owned: map<OwnedName, Tree>) {
    !AtMostOne(owned)
  }

  /** What `recover_replace_state` sets out to do in the state it inspects. */
  ghost predicate Plans(d: Parent, pc: Pc) {
    if Ambiguous(d.temps) || Ambiguous(d.backups) then pc == Finished(false)
    else exists temp, backup ::
      && Discovers(d.temps, temp)
      && Discovers(d.backups, backup)
      && pc == Plan(d.target.Some?, backup, temp)
  }

  function Plan(targetExists: bool, backup: Option<OwnedName>, temp: Option<OwnedName>): Pc {
    match (targetExists, backup, temp)
    case (false, Some(b), _) => RestoreBackup(b, temp)
    case (true, Some(b), None) => DropBackup(b)
    case (_, None, Some(t)) => DropTemp(t)
    case (true, Some(_), Some(_)) => Finished(false)
    case (_, None, None) => Recovered
  }

  ghost predicate Does(call: FsCall, d: Parent, d': Parent) {
    Apply(call, d) == Some(d')
  }

  /** One move of a generator that installs `files`. */
  ghost predicate Moves(files: Tree, pc: Pc, d: Parent, pc': Pc, d': Parent) {
    || (pc' == Finished(false) && d' == d && !pc.Finished?)       // a call failed and the error was returned
    || match pc
       case Locked => d' == d && Plans(d, pc')
       case RestoreBackup(b, t) =>
         Does(BackupToTarget(b), d, d') && pc' == pc.AfterRestore()
       case DropTemp(n) =>
         || (pc' == pc && exists path :: Does(UnlinkInTemp(n, path), d, d'))
         || (pc' == Recovered && Does(RemoveTempDir(n), d, d'))
         || (pc' == Recovered && n !in d.temps && d' == d)
       case DropBackup(n) =>
         || (pc' == pc && exists path :: Does(UnlinkInBackup(n, path), d, d'))
         || (pc' == Recovered && Does(RemoveBackupDir(n), d, d'))
         || (pc' == Recovered && n !in d.backups && d' == d)
       case Recovered =>
         exists n :: pc' == Writing(n, d.target.Some?, files.Keys) && Does(CreateTemp(n), d, d')
       case Writing(n, existed, todo) =>
         || (pc' == pc && exists path, bytes :: path in todo && Does(WriteTemp(n, path, bytes), d, d'))
         || (exists path :: path in todo && path in files && pc' == pc.(todo := todo - {path}) &&
                            Does(WriteTemp(n, path, files[path]), d, d'))
         || (todo == {} && d' == d && n !in d.backups && pc' == MoveAway(n, existed))
       case MoveAway(n, existed) =>
         pc' == Install(n) && if existed then Does(TargetToBackup(n), d, d') else d' == d
       case Install(n) =>
         || (pc' == CleanUp(n) && Does(TempToTarget(n), d, d'))
         || (pc' == RollBack(n) && d' == d)
       case RollBack(n) =>
         pc' == Discard(n) && (d' == d || Does(BackupToTarget(n), d, d'))
       case Discard(n) =>
         || (pc' == pc && exists path :: Does(UnlinkInTemp(n, path), d, d'))
         || (pc' == Finished(false) && Does(RemoveTempDir(n), d, d'))
       case CleanUp(n) =>
         || (pc' == pc && exists path :: Does(UnlinkInBackup(n, path), d, d'))
         || (pc' == Finished(true) && Does(RemoveBackupDir(n), d, d'))
         || (pc' == Finished(true) && n !in d.backups && d' == d)
       case Finished(_) => false
  }

  /** The commit point is the rename of the temporary directory to the target, and nothing else. */
  ghost function Commit(pc: Pc, pc': Pc, d': Parent, committed: Option<Tree>): Option<Tree> {
    if pc.Install? && pc'.CleanUp? then d'.target else committed
  }

  ghost predicate OnlyTemp(d: Parent, n: OwnedName) { d.temps.Keys <= {n} }

  ghost predicate OnlyBackup(d: Parent, n: OwnedName) { d.backups.Keys <= {n} }

  /** What holds at each point of a generator, on top of `Safe`. */
  ghost predicate Here(files: Tree, pc: Pc, d: Parent) {
    match pc
    case Locked => true
    case RestoreBackup(b, t) => d.target.None? && d.backups.Keys == {b} && Discovers(d.temps, t)
    case DropTemp(n) => d.backups == map[] && OnlyTemp(d, n)
    case DropBackup(n) => d.temps == map[] && d.target.Some? && OnlyBackup(d, n)
    case Recovered => d.temps == map[] && d.backups == map[]
    case Writing(n, existed, todo) =>
      && d.temps.Keys == {n} && d.backups == map[] && existed == d.target.Some?
      && todo <= files.Keys && d.temps[n].Keys <= files.Keys
      && forall path :: path in files.Keys - todo ==> path in d.temps[n] && d.temps[n][path] == files[path]
    case MoveAway(n, existed) => d.temps == map[n := files] && d.backups == map[] && existed == d.target.Some?
    case Install(n) => d.temps == map[n := files] && d.target.None? && OnlyBackup(d, n)
    case RollBack(n) => d.temps == map[n := files] && d.target.None? && OnlyBackup(d, n)
    case Discard(n) => OnlyTemp(d, n) && OnlyBackup(d, n)
    case CleanUp(n) => d.target == Some(files) && d.temps == map[] && OnlyBackup(d, n)
    case Finished(ok) => ok ==> d == Settled(Some(files))
  }

  ghost predicate Inv(files: Tree, pc: Pc, d: Parent, committed: Option<Tree>) {
    Safe(d, committed) && Here(files, pc, d)
  }

  lemma RecoveryKeepsInv(files: Tree, pc: Pc, d: Parent, pc': Pc, d': Parent, committed: Option<Tree>)
    requires pc.Locked? || pc.RestoreBackup? || pc.DropTemp? || pc.DropBackup? || pc.Recovered?
    requires Inv(files, pc, d, committed) && Moves(files, pc, d, pc', d')
    ensures Inv(files, pc', d', committed)
  {
  }

  lemma WritingKeepsInv(files: Tree, pc: Pc, d: Parent, pc': Pc, d': Parent, committed: Option<Tree>)
    requires pc.Writing?
    requires Inv(files, pc, d, committed) && Moves(files, pc, d, pc', d')
    ensures Inv(files, pc', d', committed)
  {
    if pc' == MoveAway(pc.name, pc.existed) {
      assert d.temps[pc.name] == files;
      assert d.temps == map[pc.name := files];
    }
  }

  lemma SwapKeepsInv(files: Tree, pc: Pc, d: Parent, pc': Pc, d': Parent, committed: Option<Tree>)
    requires pc.MoveAway? || pc.Install? || pc.RollBack?
    requires Inv(files, pc, d, committed) && Moves(files, pc, d, pc', d')
    ensures Inv(files, pc', d', Commit(pc, pc', d', committed))
  {
  }

  lemma CleaningKeepsInv(files: Tree, pc: Pc, d: Parent, pc': Pc, d': Parent, committed: Option<Tree>)
    requires pc.Discard? || pc.CleanUp?
    requires Inv(files, pc, d, committed) && Moves(files, pc, d, pc', d')
    ensures Inv(files, pc', d', committed)
  {
  }

  /** Every move keeps the last committed tree recoverable and the state unambiguous. */
  lemma MovesKeepInv(files: Tree, pc: Pc, d: Parent, pc': Pc, d': Parent, committed: Option<Tree>)
    requires Inv(files, pc, d, committed) && Moves(files, pc, d, pc', d')
    ensures Inv(files, pc', d', Commit(pc, pc', d', committed))
  {
    match pc
    case Writing(_, _, _) => WritingKeepsInv(files, pc, d, pc', d', committed);
    case MoveAway(_, _) => SwapKeepsInv(files, pc, d, pc', d', committed);
    case Install(_) => SwapKeepsInv(files, pc, d, pc', d', committed);
    case RollBack(_) => SwapKeepsInv(files, pc, d, pc', d', committed);
    case Discard(_) => CleaningKeepsInv(files, pc, d, pc', d', committed);
    case CleanUp(_) => CleaningKeepsInv(files, pc, d, pc', d', committed);
    case _ => RecoveryKeepsInv(files, pc, d, pc', d', committed);
  }

  /** The commit point installs the complete new tree. */
  lemma CommitInstallsWholeTree(files: Tree, pc: Pc, d: Parent, pc': Pc, d': Parent, committed: Option<Tree>)
    requires Inv(files, pc, d, committed) && Moves(files, pc, d, pc', d')
    ensures Commit(pc, pc', d', committed) == if pc.Install? && pc'.CleanUp? then Some(files) else committed
  {
  }
}
