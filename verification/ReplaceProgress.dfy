/** What the lock and the machine allow: safety alone would also hold of processes that can never move. */
module ReplaceProgress {
  import opened Wrappers
  import opened OutputParent
  import opened GeneratorMachine
  import opened RecoveryConvergence
  import opened ReplaceSystem

  /** Steps of the system, from any state. */
  ghost predicate IsPath(run: seq<System>) {
    run != [] && forall i :: 0 <= i < |run| - 1 ==> NextAt(run, i)
  }

  function Last(run: seq<System>): System
    requires run != []
  {
    run[|run| - 1]
  }

  lemma Joined(s: System, rest: seq<System>)
    requires IsPath(rest) && Next(s, rest[0])
    ensures IsPath([s] + rest) && Last([s] + rest) == Last(rest)
  {
    var run := [s] + rest;
    forall i | 0 <= i < |run| - 1 ensures NextAt(run, i) {
      if i > 0 {
        assert NextAt(rest, i - 1);
      }
    }
  }

  lemma Then(a: seq<System>, b: seq<System>)
    requires IsPath(a) && IsPath(b) && Last(a) == b[0]
    ensures IsPath(a + b[1..]) && (a + b[1..])[0] == a[0] && Last(a + b[1..]) == Last(b)
  {
    var run := a + b[1..];
    forall i | 0 <= i < |run| - 1 ensures NextAt(run, i) {
      if i < |a| - 1 {
        assert NextAt(a, i);
      } else {
        assert NextAt(b, i - (|a| - 1));
      }
    }
  }

  // ----- a check

  function Put(s: System, p: nat, proc: Proc): System {
    s.(procs := s.procs[p := proc])
  }

  lemma CheckerSteps(s: System, p: nat, proc: Proc)
    requires p in s.procs && CheckerMoves(s.procs[p], s.dir, proc) && HoldsShared(s.procs[p])
    ensures Next(s, Put(s, p, proc))
  {
    assert Step(p, s, Put(s, p, proc));
  }

  /** A checker inside an installation of what it expects can read on and pass. */
  lemma {:induction false} ReadsOn(s: System, p: nat, e: Tree, todo: set<string>, got: Tree) returns (run: seq<System>)
    requires p in s.procs && s.procs[p] == ChkRead(e, todo, got) && s.dir == Settled(Some(e))
    requires todo + got.Keys == e.Keys && forall path :: path in got ==> got[path] == e[path]
    ensures IsPath(run) && run[0] == s
    ensures Last(run).procs == s.procs[p := ChkDone(e, true)] && Last(run).dir == s.dir && Last(run).lock == s.lock
    decreases todo
  {
    if todo == {} {
      assert got == e;
      CheckerSteps(s, p, ChkDone(e, true));
      run := [Put(s, p, ChkDone(e, true))];
    } else {
      var path :| path in todo;
      var next := ChkRead(e, todo - {path}, got[path := e[path]]);
      CheckerSteps(s, p, next);
      run := ReadsOn(Put(s, p, next), p, e, todo - {path}, got[path := e[path]]);
      assert s.procs[p := next][p := ChkDone(e, true)] == s.procs[p := ChkDone(e, true)];
    }
    Joined(s, run);
    run := [s] + run;
  }

  /** From the moment it has the lock. */
  lemma InspectsOn(s: System, p: nat, e: Tree) returns (run: seq<System>)
    requires p in s.procs && s.procs[p] == ChkInspect(e) && s.dir == Settled(Some(e))
    ensures IsPath(run) && run[0] == s
    ensures Last(run).procs == s.procs[p := ChkDone(e, true)] && Last(run).dir == s.dir && Last(run).lock == s.lock
  {
    var listing := Put(s, p, ChkList(e));
    var reading := Put(listing, p, ChkRead(e, e.Keys, map[]));
    CheckerSteps(s, p, ChkList(e));
    CheckerSteps(listing, p, ChkRead(e, e.Keys, map[]));
    run := ReadsOn(reading, p, e, e.Keys, map[]);
    Joined(listing, run);
    Joined(s, [listing] + run);
    run := [s] + ([listing] + run);
  }

  /** A check that is started while no generator is inside can pass, beside any number of other checkers, if the
      directory is a finished installation of what it expects. */
  lemma CheckCanPass(s: System, p: nat, e: Tree) returns (run: seq<System>)
    requires p !in s.procs && s.lockFile && !s.lock.Exclusive? && s.dir == Settled(Some(e))
    ensures IsPath(run) && run[0] == s
    ensures Last(run).procs == s.procs[p := ChkDone(e, true)] && Last(run).dir == s.dir
  {
    var opening, blocked := Put(s, p, ChkOpening(e)), Put(s, p, ChkBlocked(e));
    var inside := Put(s, p, ChkInspect(e)).(lock := Shared(if s.lock.Shared? then s.lock.holders + {p} else {p}));
    assert Starts(ChkOpening(e));
    assert opening.procs[p := ChkBlocked(e)] == blocked.procs && blocked.procs[p := ChkInspect(e)] == inside.procs;
    assert Step(p, s, opening) && Step(p, opening, blocked) && Step(p, blocked, inside);
    run := InspectsOn(inside, p, e);
    Joined(blocked, run);
    Joined(opening, [blocked] + run);
    Joined(s, [opening] + ([blocked] + run));
    run := [s] + ([opening] + ([blocked] + run));
    assert inside.procs[p := ChkDone(e, true)] == s.procs[p := ChkDone(e, true)];
  }

  // ----- a generation

  ghost function Moved(s: System, p: nat, pc: Pc, d: Parent): System
    requires p in s.procs && s.procs[p].Gen?
  {
    var was := s.procs[p];
    s.(procs := s.procs[p := Gen(was.files, pc)], dir := d, committed := Commit(was.pc, pc, d, s.committed))
  }

  lemma GeneratorSteps(s: System, p: nat, pc: Pc, d: Parent) returns (s': System)
    requires SystemInv(s) && p in s.procs && s.procs[p].Gen?
    requires Moves(s.procs[p].files, s.procs[p].pc, s.dir, pc, d)
    ensures Next(s, s') && SystemInv(s') && s' == Moved(s, p, pc, d)
  {
    s' := Moved(s, p, pc, d);
    assert Step(p, s, s');
    StepKeepsInv(p, s, s');
  }

  lemma RecoveryIgnoresFiles(files: Tree, pc: Pc, d: Parent, pc': Pc, d': Parent)
    requires Recovering(pc) && !pc.Recovered? && Moves(map[], pc, d, pc', d')
    ensures Moves(files, pc, d, pc', d')
  {
  }

  /** A generator inside can recover whatever it finds. */
  lemma {:induction false} RecoversOn(s: System, p: nat) returns (run: seq<System>)
    requires SystemInv(s) && p in s.procs && s.procs[p].Gen? && Recovering(s.procs[p].pc)
    ensures IsPath(run) && run[0] == s && SystemInv(Last(run))
    ensures p in Last(run).procs && Last(run).procs[p] == Gen(s.procs[p].files, Recovered)
    decreases Litter(s.dir), Rank(s.procs[p].pc)
  {
    var files, pc := s.procs[p].files, s.procs[p].pc;
    if pc == Recovered {
      run := [s];
    } else {
      assert Inv(map[], pc, s.dir, s.committed);
      var pc', d' := NextCall(pc, s.dir, s.committed);
      RecoveryIgnoresFiles(files, pc, s.dir, pc', d');
      RecoveryCallsLighten(pc, s.dir, pc', d', s.committed);
      var s' := GeneratorSteps(s, p, pc', d');
      run := RecoversOn(s', p);
      Joined(s, run);
      run := [s] + run;
    }
  }

  /** A generator that fills its temporary directory can write every file. */
  lemma {:induction false} WritesOn(s: System, p: nat, n: OwnedName) returns (run: seq<System>)
    requires SystemInv(s) && p in s.procs && s.procs[p].Gen? && s.procs[p].pc.Writing? && s.procs[p].pc.name == n
    ensures IsPath(run) && run[0] == s && SystemInv(Last(run)) && p in Last(run).procs
    ensures Last(run).procs[p] == Gen(s.procs[p].files, MoveAway(n, s.procs[p].pc.existed))
    decreases s.procs[p].pc.todo
  {
    var files, pc := s.procs[p].files, s.procs[p].pc;
    if pc.todo == {} {
      var s' := GeneratorSteps(s, p, MoveAway(n, pc.existed), s.dir);
      run := [s'];
    } else {
      var path :| path in pc.todo;
      var d' := Apply(WriteTemp(n, path, files[path]), s.dir).value;
      assert Does(WriteTemp(n, path, files[path]), s.dir, d');
      var s' := GeneratorSteps(s, p, pc.(todo := pc.todo - {path}), d');
      run := WritesOn(s', p, n);
    }
    Joined(s, run);
    run := [s] + run;
  }

  /** And rename it to the target. */
  lemma SwapsOn(s: System, p: nat, n: OwnedName) returns (run: seq<System>)
    requires SystemInv(s) && p in s.procs && s.procs[p].Gen? && s.procs[p].pc.MoveAway? && s.procs[p].pc.name == n
    ensures IsPath(run) && run[0] == s && SystemInv(Last(run))
    ensures p in Last(run).procs && Last(run).procs[p] == Gen(s.procs[p].files, CleanUp(n))
  {
    var d' := if s.procs[p].pc.existed then Apply(TargetToBackup(n), s.dir).value else s.dir;
    var aside := GeneratorSteps(s, p, Install(n), d');
    var done := GeneratorSteps(aside, p, CleanUp(n), Apply(TempToTarget(n), aside.dir).value);
    Joined(aside, [done]);
    Joined(s, [aside] + [done]);
    run := [s] + ([aside] + [done]);
  }

  /** And remove the backup. */
  lemma {:induction false} CleansOn(s: System, p: nat, n: OwnedName) returns (run: seq<System>)
    requires SystemInv(s) && p in s.procs && s.procs[p].Gen? && s.procs[p].pc == CleanUp(n)
    ensures IsPath(run) && run[0] == s && SystemInv(Last(run))
    ensures p in Last(run).procs && Last(run).procs[p] == Gen(s.procs[p].files, Finished(true))
    decreases if n in s.dir.backups then s.dir.backups[n].Keys else {}
  {
    if n !in s.dir.backups || s.dir.backups[n] == map[] {
      var d' := if n in s.dir.backups then Apply(RemoveBackupDir(n), s.dir).value else s.dir;
      var s' := GeneratorSteps(s, p, Finished(true), d');
      run := [s'];
    } else {
      var path :| path in s.dir.backups[n];
      var d' := Apply(UnlinkInBackup(n, path), s.dir).value;
      assert Does(UnlinkInBackup(n, path), s.dir, d');
      var s' := GeneratorSteps(s, p, CleanUp(n), d');
      run := CleansOn(s', p, n);
    }
    Joined(s, run);
    run := [s] + run;
  }

  lemma EntersOn(s: System, p: nat, files: Tree) returns (run: seq<System>)
    requires SystemInv(s) && p !in s.procs && s.lock == Free
    ensures IsPath(run) && run[0] == s && SystemInv(Last(run))
    ensures p in Last(run).procs && Last(run).procs[p] == Gen(files, Locked)
  {
    var opening := Put(s, p, GenOpening(files));
    var blocked := Put(s, p, GenBlocked(files)).(lockFile := true);
    var inside := Put(blocked, p, Gen(files, Locked)).(lock := Exclusive(p));
    assert Starts(GenOpening(files));
    assert opening.procs[p := GenBlocked(files)] == blocked.procs;
    assert Step(p, s, opening) && Step(p, opening, blocked) && Step(p, blocked, inside);
    StepKeepsInv(p, s, opening);
    StepKeepsInv(p, opening, blocked);
    StepKeepsInv(p, blocked, inside);
    Joined(blocked, [inside]);
    Joined(opening, [blocked] + [inside]);
    Joined(s, [opening] + ([blocked] + [inside]));
    run := [s] + ([opening] + ([blocked] + [inside]));
  }

  lemma InstallsOn(s: System, p: nat, n: OwnedName) returns (run: seq<System>)
    requires SystemInv(s) && p in s.procs && s.procs[p].Gen? && s.procs[p].pc.Writing? && s.procs[p].pc.name == n
    ensures IsPath(run) && run[0] == s && SystemInv(Last(run))
    ensures p in Last(run).procs && Last(run).procs[p] == Gen(s.procs[p].files, Finished(true))
  {
    run := WritesOn(s, p, n);
    var swapping := SwapsOn(Last(run), p, n);
    Then(run, swapping);
    run := run + swapping[1..];
    var cleaning := CleansOn(Last(run), p, n);
    Then(run, cleaning);
    run := run + cleaning[1..];
  }

  lemma CreatesOn(s: System, p: nat, n: OwnedName) returns (run: seq<System>)
    requires SystemInv(s) && p in s.procs && s.procs[p].Gen? && s.procs[p].pc == Recovered
    ensures IsPath(run) && run[0] == s && SystemInv(Last(run))
    ensures p in Last(run).procs && Last(run).procs[p] == Gen(s.procs[p].files, Finished(true))
  {
    var made := Apply(CreateTemp(n), s.dir).value;
    var s' := GeneratorSteps(s, p, Writing(n, s.dir.target.Some?, s.procs[p].files.Keys), made);
    run := InstallsOn(s', p, n);
    Joined(s, run);
    run := [s] + run;
  }

  /** Whatever was interrupted before: a generation that is started while nobody is inside can succeed. */
  lemma GenerateCanSucceed(s: System, p: nat, files: Tree, n: OwnedName) returns (run: seq<System>)
    requires SystemInv(s) && p !in s.procs && s.lock == Free
    ensures IsPath(run) && run[0] == s
    ensures p in Last(run).procs && Last(run).procs[p] == Gen(files, Finished(true))
    ensures Last(run).dir == Settled(Some(files))
  {
    run := EntersOn(s, p, files);
    var recovering := RecoversOn(Last(run), p);
    Then(run, recovering);
    run := run + recovering[1..];
    var creating := CreatesOn(Last(run), p, n);
    Then(run, creating);
    run := run + creating[1..];
  }
}
