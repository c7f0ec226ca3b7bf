/** Any number of `generate` and `check` processes over one output directory, interleaved step by step.
    A process may start, fail or die at any moment; the kernel then drops its lock.  Generators take the
    lock file exclusively, checkers take it shared. */
module ReplaceSystem {
  import opened Wrappers
  import opened OutputParent
  import opened GeneratorMachine
  import RecoveryConvergence

  datatype Proc =
    | GenOpening(files: Tree)
    | GenBlocked(files: Tree)
    | Gen(files: Tree, pc: Pc)
    | ChkOpening(expected: Tree)
    | ChkBlocked(expected: Tree)
    | ChkInspect(expected: Tree)
    | ChkList(expected: Tree)
    | ChkRead(expected: Tree, todo: set<string>, got: Tree)
    | ChkDone(expected: Tree, ok: bool)

  datatype Lock = Free | Shared(holders: set<nat>) | Exclusive(holder: nat)

  datatype System = System(dir: Parent, committed: Option<Tree>, lockFile: bool, lock: Lock, procs: map<nat, Proc>)

  predicate HoldsShared(proc: Proc) {
    proc.ChkInspect? || proc.ChkList? || proc.ChkRead? || proc.ChkDone?
  }

  function Released(lock: Lock, p: nat): Lock {
    match lock
    case Exclusive(h) => if h == p then Free else lock
    case Shared(hs) => if hs - {p} == {} then Free else Shared(hs - {p})
    case Free => Free
  }

  predicate Clean(d: Parent) {
    d.temps == map[] && d.backups == map[]
  }

  ghost predicate Starts(proc: Proc) {
    proc.GenOpening? || proc.ChkOpening?
  }

  ghost predicate Init(s: System) {
    Clean(s.dir) && s.committed == s.dir.target && s.lock == Free && s.procs == map[]
  }

  /** A checker moves from `proc` to `proc'`, reading the directory and changing nothing. */
  ghost predicate CheckerMoves(proc: Proc, d: Parent, proc': Proc) {
    || (HoldsShared(proc) && !proc.ChkDone? && proc' == ChkDone(proc.expected, false))
    || match proc
       case ChkInspect(e) => Clean(d) && proc' == ChkList(e)
       case ChkList(e) => d.target.Some? && proc' == ChkRead(e, d.target.value.Keys, map[])
       case ChkRead(e, todo, got) =>
         || (exists path :: path in todo && d.target.Some? && path in d.target.value &&
               proc' == ChkRead(e, todo - {path}, got[path := d.target.value[path]]))
         || (todo == {} && proc' == ChkDone(e, got == e))
       case _ => false
  }

  /** Process `p`, which is running, moves on to `proc'`. */
  ghost predicate MovesOn(p: nat, s: System, proc': Proc, s': System)
    requires p in s.procs
  {
    var procs' := s.procs[p := proc'];
    match s.procs[p]
    case GenOpening(files) =>
      proc' == GenBlocked(files) && s' == s.(procs := procs', lockFile := true)
    case GenBlocked(files) =>
      s.lock == Free && proc' == Gen(files, Locked) && s' == s.(procs := procs', lock := Exclusive(p))
    case Gen(files, pc) =>
      && proc'.Gen? && proc'.files == files
      && Moves(files, pc, s.dir, proc'.pc, s'.dir)
      && s' == s.(procs := procs', dir := s'.dir, committed := Commit(pc, proc'.pc, s'.dir, s.committed))
    case ChkOpening(e) =>
      s.lockFile && proc' == ChkBlocked(e) && s' == s.(procs := procs')
    case ChkBlocked(e) =>
      && !s.lock.Exclusive? && proc' == ChkInspect(e)
      && s' == s.(procs := procs', lock := Shared(if s.lock.Shared? then s.lock.holders + {p} else {p}))
    case _ =>
      CheckerMoves(s.procs[p], s.dir, proc') && s' == s.(procs := procs')
  }

  /** One step of process `p`: it starts, moves on, or ends by finishing, failing or dying. */
  ghost predicate Step(p: nat, s: System, s': System) {
    if p !in s.procs then exists proc :: Starts(proc) && s' == s.(procs := s.procs[p := proc])
    else
      || s' == s.(procs := s.procs - {p}, lock := Released(s.lock, p))
      || (p in s'.procs && MovesOn(p, s, s'.procs[p], s'))
  }

  ghost predicate Next(s: System, s': System) {
    exists p :: Step(p, s, s')
  }

  ghost predicate NextAt(run: seq<System>, i: nat)
    requires i + 1 < |run|
  {
    Next(run[i], run[i + 1])
  }

  ghost predicate IsRun(run: seq<System>) {
    && run != []
    && Init(run[0])
    && forall i :: 0 <= i < |run| - 1 ==> NextAt(run, i)
  }

  /** The lock word says exactly which processes are inside. */
  ghost predicate LockAgrees(s: System) {
    && (forall p :: p in s.procs ==> (s.procs[p].Gen? <==> s.lock == Exclusive(p)))
    && (forall p :: p in s.procs ==> (HoldsShared(s.procs[p]) <==> s.lock.Shared? && p in s.lock.holders))
    && (s.lock.Exclusive? ==> s.lock.holder in s.procs)
    && (s.lock.Shared? ==> s.lock.holders <= s.procs.Keys && s.lock.holders != {})
  }

  ghost predicate CheckerHere(proc: Proc, d: Parent) {
    match proc
    case ChkList(e) => Clean(d)
    case ChkRead(e, todo, got) =>
      && Clean(d) && d.target.Some? && todo + got.Keys == d.target.value.Keys
      && forall path :: path in got ==> d.target.value[path] == got[path]
    case ChkDone(e, ok) => ok ==> d == Settled(Some(e))
    case _ => true
  }

  ghost predicate SystemInv(s: System) {
    && Safe(s.dir, s.committed)
    && LockAgrees(s)
    && (forall p :: p in s.procs && s.procs[p].Gen? ==> Here(s.procs[p].files, s.procs[p].pc, s.dir))
    && (forall p :: p in s.procs ==> CheckerHere(s.procs[p], s.dir))
  }

  lemma CheckerKeepsHere(proc: Proc, d: Parent, proc': Proc)
    requires CheckerHere(proc, d) && CheckerMoves(proc, d, proc')
    ensures CheckerHere(proc', d) && HoldsShared(proc) && HoldsShared(proc')
  {
    if proc.ChkRead? && proc.todo == {} && proc' == ChkDone(proc.expected, proc.got == proc.expected) {
      assert proc.got == d.target.value;
    }
  }

  lemma StepKeepsLock(p: nat, s: System, s': System)
    requires LockAgrees(s) && Step(p, s, s')
    ensures LockAgrees(s')
  {
    if p in s.procs && p !in s'.procs {
      EndKeepsLock(p, s, s');
    }
  }

  lemma EndKeepsLock(p: nat, s: System, s': System)
    requires LockAgrees(s) && p in s.procs && s' == s.(procs := s.procs - {p}, lock := Released(s.lock, p))
    ensures LockAgrees(s')
  {
  }

  lemma StepKeepsDir(p: nat, s: System, s': System)
    requires Step(p, s, s') && (p !in s.procs || p !in s'.procs || !s.procs[p].Gen?)
    ensures s'.dir == s.dir && s'.committed == s.committed
  {
  }

  lemma StepKeepsInv(p: nat, s: System, s': System)
    requires SystemInv(s) && Step(p, s, s')
    ensures SystemInv(s')
  {
    StepKeepsLock(p, s, s');
    if p in s.procs && p in s'.procs && s.procs[p].Gen? {
      MovesKeepInv(s.procs[p].files, s.procs[p].pc, s.dir, s'.procs[p].pc, s'.dir, s.committed);
      forall q | q in s'.procs && q != p
        ensures !s'.procs[q].Gen? && CheckerHere(s'.procs[q], s'.dir)
      {
        assert s'.procs[q] == s.procs[q] && !HoldsShared(s.procs[q]);
      }
    } else {
      StepKeepsDir(p, s, s');
      forall q | q in s'.procs ensures CheckerHere(s'.procs[q], s'.dir) {
        if q == p && p in s.procs && HoldsShared(s.procs[p]) {
          CheckerKeepsHere(s.procs[p], s.dir, s'.procs[p]);
        }
      }
    }
  }

  /** In every state of every run the directory is safe and the lock is exact. */
  lemma {:induction false} RunsKeepInv(run: seq<System>, i: nat)
    requires IsRun(run) && i < |run|
    ensures SystemInv(run[i])
  {
    if i > 0 {
      RunsKeepInv(run, i - 1);
      assert NextAt(run, i - 1);
      var p :| Step(p, run[i - 1], run[i]);
      StepKeepsInv(p, run[i - 1], run[i]);
    }
  }

  /** Two replacements never overlap, and nobody checks while one is in progress. */
  lemma ReplacementsAreAlone(run: seq<System>, i: nat, p: nat, q: nat)
    requires IsRun(run) && i < |run| && p in run[i].procs && q in run[i].procs
    requires run[i].procs[p].Gen? && (run[i].procs[q].Gen? || HoldsShared(run[i].procs[q]))
    ensures p == q
  {
    RunsKeepInv(run, i);
  }

  lemma CheckedStepKeepsDir(s: System, s': System, q: nat)
    requires SystemInv(s) && Next(s, s') && q in s.procs && HoldsShared(s.procs[q])
    ensures s'.dir == s.dir
  {
    var p :| Step(p, s, s');
    assert p in s.procs ==> !s.procs[p].Gen?;
    StepKeepsDir(p, s, s');
  }

  /** From the moment a checker has the shared lock until it lets go, the directory stands still. */
  lemma {:induction false} CheckedDirectoryStandsStill(run: seq<System>, i: nat, j: nat, q: nat)
    requires IsRun(run) && i <= j < |run|
    requires forall k :: i <= k <= j ==> q in run[k].procs && HoldsShared(run[k].procs[q])
    ensures run[j].dir == run[i].dir
  {
    if i < j {
      CheckedDirectoryStandsStill(run, i, j - 1, q);
      RunsKeepInv(run, j - 1);
      assert NextAt(run, j - 1);
      CheckedStepKeepsDir(run[j - 1], run[j], q);
    }
  }

  /** A generator that renames its temporary directory to the target, told from the processes alone. */
  ghost predicate Installs(s: System, s': System, p: nat) {
    && p in s.procs && p in s'.procs
    && s.procs[p].Gen? && s.procs[p].pc.Install?
    && s'.procs[p].Gen? && s'.procs[p].pc.CleanUp?
  }

  ghost function Installed(s: System, s': System): Option<Tree> {
    if exists p :: Installs(s, s', p) then
      var p :| Installs(s, s', p);
      Some(s'.procs[p].files)
    else None
  }

  /** The files of the last such rename; the tree found at the start when there was none. */
  ghost function LastInstalled(run: seq<System>): Option<Tree>
    requires run != []
  {
    if |run| == 1 then run[0].dir.target
    else
      var files := Installed(run[|run| - 2], run[|run| - 1]);
      if files.Some? then files else LastInstalled(run[..|run| - 1])
  }

  lemma StepCommits(p: nat, s: System, s': System)
    requires SystemInv(s) && Step(p, s, s')
    ensures s'.committed == var files := Installed(s, s'); if files.Some? then files else s.committed
  {
    if p in s.procs && p in s'.procs && s.procs[p].Gen? {
      CommitInstallsWholeTree(s.procs[p].files, s.procs[p].pc, s.dir, s'.procs[p].pc, s'.dir, s.committed);
      if Commit(s.procs[p].pc, s'.procs[p].pc, s'.dir, s.committed) != s.committed {
        assert Installs(s, s', p);
      }
    } else {
      StepKeepsDir(p, s, s');
    }
  }

  lemma {:induction false} CommittedIsLastInstalled(run: seq<System>)
    requires IsRun(run)
    ensures run[|run| - 1].committed == LastInstalled(run)
  {
    if |run| > 1 {
      var init, s, s' := run[..|run| - 1], run[|run| - 2], run[|run| - 1];
      assert forall i :: 0 <= i < |init| - 1 ==> NextAt(run, i) ==> NextAt(init, i);
      CommittedIsLastInstalled(init);
      RunsKeepInv(run, |run| - 2);
      assert NextAt(run, |run| - 2);
      var p :| Step(p, s, s');
      StepCommits(p, s, s');
      assert init[|init| - 1] == s;
    }
  }

  /** The recovery guarantee, over every history of generators and checkers, each cut off anywhere.  When a
      recovery gets through, the target is the whole tree of the last rename that happened and no owned
      directory is left; until then the state is one that recovery accepts. */
  lemma CrashSafety(run: seq<System>, p: nat)
    requires IsRun(run)
    ensures var s := run[|run| - 1];
            && Safe(s.dir, LastInstalled(run))
            && (p in s.procs && s.procs[p].Gen? && s.procs[p].pc == Recovered ==> s.dir == Settled(LastInstalled(run)))
            && (p in s.procs && s.procs[p].Gen? && s.procs[p].pc == Finished(true) ==>
                  s.dir == Settled(Some(s.procs[p].files)) && LastInstalled(run) == Some(s.procs[p].files))
            && (p in s.procs && s.procs[p].Gen? && s.procs[p].pc == Locked ==>
                  forall pc :: Plans(s.dir, pc) ==> RecoveryConvergence.Recovering(pc))
  {
    var s := run[|run| - 1];
    RunsKeepInv(run, |run| - 1);
    CommittedIsLastInstalled(run);
    forall pc | Plans(s.dir, pc) ensures RecoveryConvergence.Recovering(pc) {
      RecoveryConvergence.RecoveryNeverRefuses(s.dir, s.committed, pc);
    }
  }

  /** A check that passes read one complete committed tree, equal to what it expected. */
  lemma PassedCheckSawCommittedTree(run: seq<System>, p: nat)
    requires IsRun(run)
    requires var s := run[|run| - 1]; p in s.procs && s.procs[p].ChkDone? && s.procs[p].ok
    ensures var s := run[|run| - 1];
            s.dir == Settled(Some(s.procs[p].expected)) && LastInstalled(run) == Some(s.procs[p].expected)
  {
    RunsKeepInv(run, |run| - 1);
    CommittedIsLastInstalled(run);
  }
}
