/** Recovery that is interrupted and run again, any number of times, settles on the tree that one
    uninterrupted recovery would leave. */
module RecoveryConvergence {
  import opened Wrappers
  import opened OutputParent
  import opened GeneratorMachine

  datatype Point = Point(pc: Pc, d: Parent)

  ghost predicate Recovering(pc: Pc) {
    pc.Locked? || pc.RestoreBackup? || pc.DropTemp? || pc.DropBackup? || pc.Recovered?
  }

  /** A move of recovery, or an interruption after which recovery starts over. */
  ghost predicate Resumes(a: Point, b: Point) {
    || (b.pc == Locked && b.d == a.d)
    || (Recovering(a.pc) && Recovering(b.pc) && !a.pc.Recovered? && Moves(map[], a.pc, a.d, b.pc, b.d))
  }

  ghost predicate History(trace: seq<Point>) {
    && trace != []
    && trace[0].pc == Locked
    && forall i :: 0 <= i < |trace| - 1 ==> Resumes(trace[i], trace[i + 1])
  }

  /** The calls of a history that changed the directory. */
  ghost function Changes(trace: seq<Point>): nat
    requires trace != []
  {
    if |trace| == 1 then 0
    else Changes(trace[..|trace| - 1]) + if trace[|trace| - 1].d == trace[|trace| - 2].d then 0 else 1
  }

  ghost function Rank(pc: Pc): nat {
    match pc
    case Locked => 3
    case RestoreBackup(_, _) => 2
    case DropTemp(_) => 1
    case DropBackup(_) => 1
    case _ => 0
  }

  lemma UnlinkLightens(owned: map<OwnedName, Tree>, n: OwnedName, path: string)
    requires AtMostOne(owned) && n in owned && path in owned[n]
    ensures Weight(owned[n := owned[n] - {path}]) == Weight(owned) - 1
  {
    WeightOfOne(owned, n);
    WeightOfOne(owned[n := owned[n] - {path}], n);
    assert (owned[n] - {path}).Keys == owned[n].Keys - {path};
  }

  lemma RemoveLightens(owned: map<OwnedName, Tree>, n: OwnedName)
    requires AtMostOne(owned) && n in owned
    ensures Weight(owned - {n}) < Weight(owned)
  {
    WeightOfOne(owned, n);
  }

  ghost predicate RemovesOwned(call: FsCall) {
    call.BackupToTarget? || call.UnlinkInTemp? || call.RemoveTempDir? || call.UnlinkInBackup? || call.RemoveBackupDir?
  }

  lemma RemovalLightens(call: FsCall, d: Parent, d': Parent)
    requires RemovesOwned(call) && AtMostOne(d.temps) && AtMostOne(d.backups) && Does(call, d, d')
    ensures d' != d && Litter(d') < Litter(d)
  {
    match call
    case BackupToTarget(n) => RemoveLightens(d.backups, n);
    case UnlinkInTemp(n, path) => UnlinkLightens(d.temps, n, path);
    case RemoveTempDir(n) => RemoveLightens(d.temps, n);
    case UnlinkInBackup(n, path) => UnlinkLightens(d.backups, n, path);
    case RemoveBackupDir(n) => RemoveLightens(d.backups, n);
  }

  lemma RecoveryMoveIsRemoval(pc: Pc, d: Parent, pc': Pc, d': Parent) returns (call: Option<FsCall>)
    requires Recovering(pc) && !pc.Recovered? && Recovering(pc') && Moves(map[], pc, d, pc', d')
    ensures call.Some? ==> RemovesOwned(call.value) && Does(call.value, d, d')
    ensures call.None? ==> d' == d && Rank(pc') < Rank(pc)
  {
    call := None;
    match pc
    case Locked =>
    case RestoreBackup(b, t) => call := Some(BackupToTarget(b));
    case DropTemp(n) =>
      if pc' == pc {
        var path :| Does(UnlinkInTemp(n, path), d, d');
        call := Some(UnlinkInTemp(n, path));
      } else if Does(RemoveTempDir(n), d, d') {
        call := Some(RemoveTempDir(n));
      }
    case DropBackup(n) =>
      if pc' == pc {
        var path :| Does(UnlinkInBackup(n, path), d, d');
        call := Some(UnlinkInBackup(n, path));
      } else if Does(RemoveBackupDir(n), d, d') {
        call := Some(RemoveBackupDir(n));
      }
  }

  /** Every recovery call that changes the directory removes litter; the other moves advance. */
  lemma RecoveryCallsLighten(pc: Pc, d: Parent, pc': Pc, d': Parent, committed: Option<Tree>)
    requires Recovering(pc) && !pc.Recovered? && Recovering(pc')
    requires Safe(d, committed) && Moves(map[], pc, d, pc', d')
    ensures if d' == d then Rank(pc') < Rank(pc) else Litter(d') < Litter(d)
  {
    var call := RecoveryMoveIsRemoval(pc, d, pc', d');
    if call.Some? {
      RemovalLightens(call.value, d, d');
    }
  }

  /** In a state the protocol left behind, recovery never refuses: it has a call to make. */
  lemma RecoveryNeverRefuses(d: Parent, committed: Option<Tree>, pc: Pc)
    requires Safe(d, committed) && Plans(d, pc)
    ensures Recovering(pc) && pc != Locked
    ensures pc == Recovered <==> d == Settled(d.target)
  {
    var temp, backup :|
      Discovers(d.temps, temp) && Discovers(d.backups, backup) && pc == Plan(d.target.Some?, backup, temp);
    if pc == Recovered {
      assert d.temps == map[] && d.backups == map[];
    }
  }

  lemma Discovered(owned: map<OwnedName, Tree>) returns (found: Option<OwnedName>)
    requires AtMostOne(owned)
    ensures Discovers(owned, found)
  {
    if owned == map[] {
      found := None;
    } else {
      var n :| n in owned;
      assert owned.Keys == {n};
      found := Some(n);
    }
  }

  lemma NextCall(pc: Pc, d: Parent, committed: Option<Tree>) returns (pc': Pc, d': Parent)
    requires Recovering(pc) && !pc.Recovered? && Inv(map[], pc, d, committed)
    ensures Recovering(pc') && Moves(map[], pc, d, pc', d')
  {
    d' := d;
    match pc
    case Locked =>
      var temp := Discovered(d.temps);
      var backup := Discovered(d.backups);
      pc' := Plan(d.target.Some?, backup, temp);
      RecoveryNeverRefuses(d, committed, pc');
    case RestoreBackup(b, t) =>
      pc' := if t.Some? then DropTemp(t.value) else Recovered;
      d' := Apply(BackupToTarget(b), d).value;
    case DropTemp(n) =>
      pc' := Recovered;
      if n in d.temps {
        if d.temps[n] == map[] {
          d' := Apply(RemoveTempDir(n), d).value;
        } else {
          var path :| path in d.temps[n];
          pc', d' := pc, Apply(UnlinkInTemp(n, path), d).value;
          assert Does(UnlinkInTemp(n, path), d, d');
        }
      }
    case DropBackup(n) =>
      pc' := Recovered;
      if n in d.backups {
        if d.backups[n] == map[] {
          d' := Apply(RemoveBackupDir(n), d).value;
        } else {
          var path :| path in d.backups[n];
          pc', d' := pc, Apply(UnlinkInBackup(n, path), d).value;
          assert Does(UnlinkInBackup(n, path), d, d');
        }
      }
  }

  /** Recovery left alone always finishes, from every point at which it can be interrupted. */
  lemma {:induction false} RecoveryFinishes(pc: Pc, d: Parent, committed: Option<Tree>) returns (rest: seq<Point>)
    requires Recovering(pc) && Inv(map[], pc, d, committed)
    ensures rest != [] && rest[0] == Point(pc, d)
    ensures forall i :: 0 <= i < |rest| - 1 ==> Resumes(rest[i], rest[i + 1])
    ensures rest[|rest| - 1] == Point(Recovered, Settled(committed))
    decreases Litter(d), Rank(pc)
  {
    rest := [Point(pc, d)];
    if pc == Recovered {
      assert d == Settled(committed);
    } else {
      var pc', d' := NextCall(pc, d, committed);
      MovesKeepInv(map[], pc, d, pc', d', committed);
      RecoveryCallsLighten(pc, d, pc', d', committed);
      var more := RecoveryFinishes(pc', d', committed);
      rest := rest + more;
    }
  }

  /** However often recovery is cut off, the committed tree stays recoverable, the number of calls that
      change anything is bounded by the litter found at the start, and once a recovery gets through, the
      directory is exactly the settled one. */
  lemma {:induction false} InterruptedRecoveryConverges(trace: seq<Point>, committed: Option<Tree>)
    requires History(trace) && Safe(trace[0].d, committed)
    ensures var last := trace[|trace| - 1];
            && Recovering(last.pc) && Inv(map[], last.pc, last.d, committed)
            && Changes(trace) + Litter(last.d) <= Litter(trace[0].d)
            && (last.pc == Recovered ==> last.d == Settled(committed))
  {
    if |trace| > 1 {
      var init, a, b := trace[..|trace| - 1], trace[|trace| - 2], trace[|trace| - 1];
      InterruptedRecoveryConverges(init, committed);
      assert Resumes(a, b);
      assert init[|init| - 1] == a;
      if b.pc == Locked && b.d == a.d {
      } else {
        MovesKeepInv(map[], a.pc, a.d, b.pc, b.d, committed);
        RecoveryCallsLighten(a.pc, a.d, b.pc, b.d, committed);
      }
    }
  }

  /** A second recovery changes nothing. */
  lemma {:induction false} SecondRecoveryChangesNothing(trace: seq<Point>, committed: Option<Tree>)
    requires History(trace) && trace[0].d == Settled(committed)
    ensures forall i :: 0 <= i < |trace| ==> trace[i].d == Settled(committed)
  {
    if |trace| > 1 {
      var init := trace[..|trace| - 1];
      SecondRecoveryChangesNothing(init, committed);
      InterruptedRecoveryConverges(init, committed);
      InterruptedRecoveryConverges(trace, committed);
      assert Litter(trace[0].d) == 0;
      assert trace[|trace| - 2] == init[|init| - 1];
    }
  }
}
