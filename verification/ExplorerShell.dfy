/** The refs, timers and revision state of the Explorer shell, updated in place by its handlers and callbacks.
    Every method does to the fields what the function of the same name in `ExplorerBuffer` does to a value. */
module ExplorerShell {
  import opened Wrappers
  import opened ExplorerEvents
  import opened ExplorerBuffer

  class Shell {
    var pendingEvents: seq<Event>
    var pendingBoardId: Option<string>
    var pendingBoundary: bool
    var pendingBoundaryTypes: set<Kind>
    var pendingEventInvalidation: Invalidation
    var pendingEventBoundarySource: bool
    var eventAppliedTimer: bool
    var boundaryTimer: Timer
    var revisions: Revisions
    var eventsBatch: Option<Batch>
    ghost var ledger: Ledger

    ghost function State(): Buffer
      reads this
    {
      Buffer(pendingEvents, pendingBoardId, pendingBoundary, pendingBoundaryTypes, pendingEventInvalidation,
             pendingEventBoundarySource, eventAppliedTimer, boundaryTimer, revisions, eventsBatch, ledger)
    }

    constructor ()
      ensures State() == Initial()
    {
      pendingEvents, pendingBoardId := [], None;
      pendingBoundary, pendingBoundaryTypes := false, {};
      pendingEventInvalidation, pendingEventBoundarySource := NO_INVALIDATION, false;
      eventAppliedTimer, boundaryTimer := false, Unset;
      revisions, eventsBatch := Revisions(0, 0, 0, 0), None;
      ledger := Ledger(NO_FLAGS, NO_FLAGS, NO_FLAGS);
    }

    method BumpExplorerRevision(targets: Flags, events: bool)
      modifies this`revisions, this`ledger
      ensures State() == Bump(old(State()), targets, events)
    {
      var r := revisions;
      revisions := Revisions(r.board + (if targets.board then 1 else 0),
                             r.inspector + (if targets.inspector then 1 else 0),
                             r.runs + (if targets.runs then 1 else 0), r.events + (if events then 1 else 0));
      ledger := Ledger(ledger.owed.Minus(targets), ledger.deferred.Minus(targets), ledger.dropped.Minus(targets));
    }

    /** The part of a flush that follows the append: publish the page, or turn the refusal into a boundary. */
    method Commit(appended: Option<seq<Event>>, boardId: string, invalidation: Invalidation, boundarySource: bool,
                  ghost b: Buffer)
      requires State() == Emptied(b) && b.events != [] && b.boardId == Some(boardId)
      requires b.invalidation == invalidation && b.boundarySource == boundarySource
      modifies this
      ensures State() == FlushAs(b, appended)
    {
      match appended
      case Some(events) =>
        if |events| == 0 {
          return;
        }
        eventsBatch := Some(Batch(boardId, events, events[|events| - 1].id));
        if !pendingBoundary && !boundarySource && !invalidation.fullRefetch {
          BumpExplorerRevision(invalidation.flags, false);
        } else if !pendingBoundary {
          ledger := if boundarySource then Defer(ledger) else Drop(ledger);
        }
      case None =>
        eventsBatch := None;
        pendingBoundary := true;
        pendingBoundaryTypes := pendingBoundaryTypes + {ProtocolAnomaly};
        if boundaryTimer == Unset {
          boundaryTimer := ForBatchError;
        }
    }

    method FlushEventBatch()
      modifies this
      ensures State() == Flush(old(State()))
    {
      ghost var b := State();
      var pending, boardId := pendingEvents, pendingBoardId;
      var invalidation, boundarySource := pendingEventInvalidation, pendingEventBoundarySource;
      pendingEvents, pendingBoardId := [], None;
      pendingEventInvalidation, pendingEventBoundarySource := NO_INVALIDATION, false;
      if |pending| == 0 || boardId.None? {
        return;
      }
      assert [] + pending == pending;
      var appended := AppendExplorerEventBatch([], pending, boardId.value);
      Commit(if appended.Ok? then Some(appended.value) else None, boardId.value, invalidation, boundarySource, b);
    }

    method OnBatchErrorTimer()
      requires boundaryTimer == ForBatchError
      modifies this
      ensures State() == React(old(State()), BoundaryTimeout)
    {
      boundaryTimer := Unset;
      if !pendingBoundary {
        return;
      }
      pendingBoundary := false;
      pendingBoundaryTypes := {};
      BumpExplorerRevision(ALL_FLAGS, true);
    }

    method OnEventAppliedTimer()
      requires eventAppliedTimer
      modifies this
      ensures State() == React(old(State()), EventTimeout)
    {
      eventAppliedTimer := false;
      FlushEventBatch();
    }

    method FlushIfTimerSet()
      modifies this
      ensures State() == FlushIfTimed(old(State()))
    {
      if eventAppliedTimer {
        eventAppliedTimer := false;
        FlushEventBatch();
      }
    }

    method ArmBoundaryTimer()
      modifies this`boundaryTimer
      ensures State() == Armed(old(State()))
    {
      if boundaryTimer != Unset {
        return;
      }
      boundaryTimer := ForBoundary;
    }

    method ScheduleBoundaryRefresh(kind: Kind)
      modifies this
      ensures State() == Schedule(old(State()), kind)
    {
      pendingBoundary := true;
      pendingBoundaryTypes := pendingBoundaryTypes + {kind};
      FlushIfTimerSet();
      ArmBoundaryTimer();
    }

    method OnBoundaryTimer()
      requires boundaryTimer == ForBoundary
      modifies this
      ensures State() == React(old(State()), BoundaryTimeout)
    {
      boundaryTimer := Unset;
      if !pendingBoundary {
        return;
      }
      FlushIfTimerSet();
      pendingBoundary := false;
      var refresh := HasBoundary(pendingBoundaryTypes);
      pendingBoundaryTypes := {};
      eventsBatch := None;
      if refresh {
        BumpExplorerRevision(ALL_FLAGS, true);
      }
    }

    method OnSessionTelemetry(entry: Entry)
      modifies this
      ensures State() == React(old(State()), Telemetry(entry))
    {
      match entry
      case Control(kind) =>
        if !Listened(kind) || kind == ConnectionLive || kind == RecoveryStart || kind == RecoveryConnectionRetry {
          return;
        }
        ScheduleBoundaryRefresh(kind);
      case EventApplied(boardId, event, plan, source) =>
        if event.None? || event.value.boardId != boardId {
          ScheduleBoundaryRefresh(ProtocolAnomaly);
          return;
        }
        OnApplied(event.value, boardId, plan, source);
    }

    method RaiseInvalidation(plan: Plan, source: Source)
      modifies this
      ensures State() == Raise(old(State()), plan, source)
    {
      var invalidation := Project(plan);
      pendingEventInvalidation := Invalidation(pendingEventInvalidation.flags.Or(invalidation.flags),
                                               pendingEventInvalidation.fullRefetch || invalidation.fullRefetch);
      ledger := ledger.(owed := ledger.owed.Or(invalidation.flags));
      if source == Recovery || source == Poll || source == PollBoundary {
        pendingEventBoundarySource := true;
      }
    }

    method FlushOtherBoard(boardId: string)
      modifies this
      ensures State() == SwitchBoard(old(State()), boardId)
    {
      if pendingBoardId.Some? && pendingBoardId != Some(boardId) {
        FlushEventBatch();
      }
    }

    method OnApplied(event: Event, boardId: string, plan: Plan, source: Source)
      modifies this
      ensures State() == Applied(old(State()), event, boardId, plan, source)
    {
      RaiseInvalidation(plan, source);
      if plan.fullRefetch {
        ScheduleBoundaryRefresh(ProtocolAnomaly);
      }
      FlushOtherBoard(boardId);
      pendingBoardId := Some(boardId);
      pendingEvents := pendingEvents + [event];
      if eventAppliedTimer {
        return;
      }
      eventAppliedTimer := true;
    }

    method OnSessionKeyChange()
      modifies this
      ensures State() == React(old(State()), NewSession)
    {
      if eventAppliedTimer {
        eventAppliedTimer := false;
      }
      if boundaryTimer != Unset {
        boundaryTimer := Unset;
      }
      pendingEvents, pendingBoardId := [], None;
      pendingBoundary, pendingBoundaryTypes := false, {};
      pendingEventInvalidation, pendingEventBoundarySource := NO_INVALIDATION, false;
      revisions, eventsBatch := Revisions(0, 0, 0, 0), None;
      ledger := Ledger(NO_FLAGS, NO_FLAGS, NO_FLAGS);
    }
  }
}
