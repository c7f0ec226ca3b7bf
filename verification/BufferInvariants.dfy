/** What every handler and timer of the Explorer buffer keeps, and what becomes of a raised invalidation. */
module BufferInvariants {
  import opened Wrappers
  import opened ExplorerEvents
  import opened ExplorerBuffer
  import opened BatchLaws

  ghost predicate GoodBatch(batch: Batch) {
    && batch.events != [] && |batch.events| <= BOARD_EVENTS_PAGE_LIMIT
    && StrictlyAscending(batch.events)
    && AllAdmissible(batch.events, batch.boardId)
    && batch.nextAfter == batch.events[|batch.events| - 1].id
  }

  /** Between handlers: the event timer is set iff events are pending iff a board is pending, and they are
      all of that board; a pending boundary has its timer and a boundary kind; a published batch is good. */
  ghost predicate Valid(b: Buffer) {
    && (b.eventTimer <==> b.events != [])
    && (b.boardId.Some? <==> b.events != [])
    && (forall e :: e in b.events ==> b.boardId == Some(e.boardId))
    && (b.events == [] ==> b.invalidation == NO_INVALIDATION && !b.boundarySource)
    && (b.boundary ==> b.boundaryTimer != Unset && HasBoundary(b.kinds))
    && (!b.boundary ==> b.kinds == {})
    && (b.batch.Some? ==> GoodBatch(b.batch.value))
  }

  /** Is a flag that was raised and not bumped since accounted for? */
  predicate Seen(owed: bool, pending: bool, deferred: bool, dropped: bool) {
    owed ==> pending || deferred || dropped
  }

  /** Every such flag is pending, or waits for a boundary, or was deferred, or was dropped.  With `Valid`,
      a pending flag has its event timer set and a pending boundary its boundary timer. */
  predicate Accounted(b: Buffer) {
    var l, f := b.ledger, b.invalidation.flags;
    b.boundary ||
    (Seen(l.owed.board, f.board, l.deferred.board, l.dropped.board) &&
     Seen(l.owed.inspector, f.inspector, l.deferred.inspector, l.dropped.inspector) &&
     Seen(l.owed.runs, f.runs, l.deferred.runs, l.dropped.runs))
  }

  lemma PageOfSome(events: seq<Event>, boardId: string)
    requires events != [] && Accepted(events, boardId)
    ensures var page := Page(events); page != [] && GoodBatch(Batch(boardId, page, page[|page| - 1].id))
  {
    PageFacts(events);
    FirstByIdFacts(events);
    assert events[0].id in FirstById(events);
  }

  /** The buffer may be between two assignments of a handler; the timers and the pending events then need
      not agree, everything else does. */
  ghost predicate Loose(b: Buffer) {
    && (b.boardId.Some? <==> b.events != [])
    && (forall e :: e in b.events ==> b.boardId == Some(e.boardId))
    && (b.batch.Some? ==> GoodBatch(b.batch.value))
  }

  lemma FlushKeepsLoose(b: Buffer)
    requires Loose(b)
    ensures Loose(Flush(b))
  {
    if b.events != [] && Accepted(b.events, b.boardId.value) {
      PageOfSome(b.events, b.boardId.value);
    }
  }

  /** A flush empties the pending events, and arms a boundary if it has to refuse them. */
  ghost predicate Flushed(b: Buffer, f: Buffer) {
    && f.events == [] && f.invalidation == NO_INVALIDATION && !f.boundarySource && f.eventTimer == b.eventTimer
    && (b.boundary ==> f.boundary && f.revisions == b.revisions && f.ledger == b.ledger)
    && (b.boundaryTimer != Unset ==> f.boundaryTimer == b.boundaryTimer)
    && (f.boundary && !b.boundary ==>
          f.boundaryTimer != Unset && f.kinds == b.kinds + {ProtocolAnomaly} && f.ledger == b.ledger)
    && (f.kinds == b.kinds || (f.boundary && f.kinds == b.kinds + {ProtocolAnomaly}))
    && (!f.boundary ==> f.boundaryTimer == b.boundaryTimer)
  }

  lemma FlushIsFlushed(b: Buffer, appended: Option<seq<Event>>)
    ensures Flushed(b, FlushAs(b, appended))
  {
  }

  lemma FlushFacts(b: Buffer)
    requires Loose(b)
    ensures Loose(Flush(b)) && Flushed(b, Flush(b))
    ensures HasBoundary(b.kinds) ==> HasBoundary(Flush(b).kinds)
    ensures Flush(b).boundary && !b.boundary ==> HasBoundary(Flush(b).kinds)
  {
    FlushKeepsLoose(b);
    FlushIsFlushed(b, Appended(b));
    assert IsBoundary(ProtocolAnomaly);
  }

  /** Scheduling a boundary arms its timer, bumps nothing and flushes what was timed. */
  lemma ScheduleFacts(b: Buffer, kind: Kind)
    requires Loose(b) && IsBoundary(kind)
    ensures var s := Schedule(b, kind);
            && Loose(s) && s.boundary && s.boundaryTimer != Unset && HasBoundary(s.kinds)
            && s.revisions == b.revisions && s.ledger == b.ledger && !s.eventTimer
            && (b.boundaryTimer != Unset ==> s.boundaryTimer == b.boundaryTimer)
            && (b.eventTimer ==> s.events == [] && s.invalidation == NO_INVALIDATION && !s.boundarySource)
            && (!b.eventTimer ==> s.events == b.events && s.boardId == b.boardId)
            && (!b.eventTimer ==> s.invalidation == b.invalidation && s.boundarySource == b.boundarySource)
  {
    var started := b.(boundary := true, kinds := b.kinds + {kind}, eventTimer := false);
    FlushFacts(started);
    assert kind in started.kinds;
    assert kind in Schedule(b, kind).kinds;
  }

  /** Where an applied event's own flags stand once its handler is done. */
  lemma AppliedFacts(b: Buffer, event: Event, boardId: string, plan: Plan, source: Source)
    requires Valid(b) && event.boardId == boardId
    ensures Valid(Applied(b, event, boardId, plan, source))
    ensures b.boundary ==> Applied(b, event, boardId, plan, source).revisions == b.revisions
    ensures b.boundary ==> Applied(b, event, boardId, plan, source).boundary
    ensures b.boundaryTimer != Unset ==> Applied(b, event, boardId, plan, source).boundaryTimer == b.boundaryTimer
  {
    var raised := Raise(b, plan, source);
    assert Loose(raised);
    assert IsBoundary(ProtocolAnomaly);
    var scheduled := if plan.fullRefetch then Schedule(raised, ProtocolAnomaly) else raised;
    if plan.fullRefetch {
      ScheduleFacts(raised, ProtocolAnomaly);
    }
    FlushFacts(scheduled);
  }

  lemma TelemetryKeepsValid(b: Buffer, entry: Entry)
    requires Valid(b)
    ensures Valid(OnTelemetry(b, entry))
    ensures b.boundary ==>
              var t := OnTelemetry(b, entry);
              t.boundary && t.revisions == b.revisions && t.boundaryTimer == b.boundaryTimer
  {
    match entry
    case EventApplied(boardId, event, plan, source) =>
      if event.None? || event.value.boardId != boardId {
        ScheduleFacts(b, ProtocolAnomaly);
      } else {
        AppliedFacts(b, event.value, boardId, plan, source);
      }
    case Control(kind) =>
      if IsBoundary(kind) {
        ScheduleFacts(b, kind);
      }
  }

  lemma TimersKeepValid(b: Buffer, input: Input)
    requires Valid(b) && Enabled(b, input) && (input.EventTimeout? || input.BoundaryTimeout?)
    ensures Valid(React(b, input))
  {
    FlushFacts(b.(eventTimer := false));
    FlushFacts(b.(boundaryTimer := Unset, eventTimer := false));
  }

  lemma ReactKeepsValid(b: Buffer, input: Input)
    requires Valid(b) && Enabled(b, input)
    ensures Valid(React(b, input))
  {
    match input
    case Telemetry(entry) => TelemetryKeepsValid(b, entry);
    case NewSession =>
    case _ => TimersKeepValid(b, input);
  }

  // ----- nothing raised is forgotten, but for what is dropped

  lemma FlushKeepsAccounted(b: Buffer)
    requires Accounted(b) && b.events != [] && b.boardId.Some?
    ensures Accounted(Flush(b))
  {
    if Accepted(b.events, b.boardId.value) {
      PageOfSome(b.events, b.boardId.value);
      var published := Publish(Emptied(b), b.boardId.value, Page(b.events));
      if !b.boundary && !b.boundarySource && !b.invalidation.fullRefetch {
        BumpKeepsAccounted(b, published);
      }
    }
  }

  lemma BumpKeepsAccounted(b: Buffer, published: Buffer)
    requires Accounted(b) && published.ledger == b.ledger && !b.boundary
    ensures Accounted(Bump(published, b.invalidation.flags, false))
  {
  }

  lemma AppliedKeepsAccounted(b: Buffer, event: Event, boardId: string, plan: Plan, source: Source)
    requires Valid(b) && Accounted(b) && event.boardId == boardId
    ensures Accounted(Applied(b, event, boardId, plan, source))
  {
    var raised := Raise(b, plan, source);
    assert Accounted(raised) && Loose(raised);
    if plan.fullRefetch {
      assert IsBoundary(ProtocolAnomaly);
      ScheduleFacts(raised, ProtocolAnomaly);
      FlushFacts(Schedule(raised, ProtocolAnomaly));
    } else if raised.boardId.Some? && raised.boardId != Some(boardId) {
      FlushKeepsAccounted(raised);
    }
  }

  lemma ReactKeepsAccounted(b: Buffer, input: Input)
    requires Valid(b) && Accounted(b) && Enabled(b, input)
    ensures Accounted(React(b, input))
  {
    match input
    case Telemetry(EventApplied(boardId, event, plan, source)) =>
      if event.None? || event.value.boardId != boardId {
        ScheduleFacts(b, ProtocolAnomaly);
      } else {
        AppliedKeepsAccounted(b, event.value, boardId, plan, source);
      }
    case Telemetry(Control(kind)) =>
      if IsBoundary(kind) {
        ScheduleFacts(b, kind);
      }
    case EventTimeout => FlushKeepsAccounted(b.(eventTimer := false));
    case BoundaryTimeout => BoundaryPaysEverything(b);
    case NewSession =>
  }

  /** A boundary callback with a boundary pending bumps every revision once and settles every flag. */
  lemma BoundaryPaysEverything(b: Buffer)
    requires Valid(b) && b.boundaryTimer != Unset
    ensures var r, after := b.revisions, React(b, BoundaryTimeout);
            if !b.boundary then after == b.(boundaryTimer := Unset)
            else
              && after.ledger == Ledger(NO_FLAGS, NO_FLAGS, NO_FLAGS) && !after.boundary
              && after.revisions == Revisions(r.board + 1, r.inspector + 1, r.runs + 1, r.events + 1)
  {
    FlushFacts(b.(boundaryTimer := Unset, eventTimer := false));
  }

  /** Only what is owed can have been deferred or dropped. */
  predicate Within(part: Flags, whole: Flags) {
    (part.board ==> whole.board) && (part.inspector ==> whole.inspector) && (part.runs ==> whole.runs)
  }

  ghost predicate Recorded(l: Ledger) {
    Within(l.deferred, l.owed) && Within(l.dropped, l.owed)
  }

  lemma FlushAsKeepsRecorded(b: Buffer, appended: Option<seq<Event>>)
    requires Recorded(b.ledger)
    ensures Recorded(FlushAs(b, appended).ledger)
  {
  }

  lemma FlushKeepsRecorded(b: Buffer)
    requires Recorded(b.ledger)
    ensures Recorded(Flush(b).ledger)
  {
    FlushAsKeepsRecorded(b, Appended(b));
  }

  lemma SwitchKeepsRecorded(b: Buffer, boardId: string)
    requires Recorded(b.ledger)
    ensures Recorded(SwitchBoard(b, boardId).ledger)
  {
    FlushKeepsRecorded(b);
  }

  lemma ScheduleKeepsRecorded(b: Buffer, kind: Kind)
    requires Recorded(b.ledger)
    ensures Recorded(Schedule(b, kind).ledger)
  {
    FlushKeepsRecorded(b.(boundary := true, kinds := b.kinds + {kind}, eventTimer := false));
  }

  lemma AppliedKeepsRecorded(b: Buffer, event: Event, boardId: string, plan: Plan, source: Source)
    requires Recorded(b.ledger)
    ensures Recorded(Applied(b, event, boardId, plan, source).ledger)
  {
    var raised := Raise(b, plan, source);
    ScheduleKeepsRecorded(raised, ProtocolAnomaly);
    SwitchKeepsRecorded(if plan.fullRefetch then Schedule(raised, ProtocolAnomaly) else raised, boardId);
  }

  lemma BoundaryKeepsRecorded(b: Buffer)
    requires Recorded(b.ledger)
    ensures Recorded(BoundaryFires(b).ledger)
  {
    FlushKeepsRecorded(b.(boundaryTimer := Unset, eventTimer := false));
  }

  lemma ReactKeepsRecorded(b: Buffer, input: Input)
    requires Recorded(b.ledger)
    ensures Recorded(React(b, input).ledger)
  {
    match input
    case Telemetry(EventApplied(boardId, event, plan, source)) =>
      if event.Some? && event.value.boardId == boardId {
        AppliedKeepsRecorded(b, event.value, boardId, plan, source);
      } else {
        ScheduleKeepsRecorded(b, ProtocolAnomaly);
      }
    case Telemetry(Control(kind)) => ScheduleKeepsRecorded(b, kind);
    case EventTimeout => FlushKeepsRecorded(b.(eventTimer := false));
    case BoundaryTimeout => BoundaryKeepsRecorded(b);
    case NewSession =>
  }

  // ----- when something is dropped

  /** A flush would drop what is owed: it carries a full refetch, and no boundary is pending or will follow. */
  ghost predicate Lossy(b: Buffer) {
    && b.invalidation.fullRefetch && !b.boundary && !b.boundarySource && b.ledger.owed != NO_FLAGS
    && b.boardId.Some? && Accepted(b.events, b.boardId.value)
  }

  /** The inputs that flush such a buffer without scheduling a boundary first: the event timer, and an applied
      event of another board. */
  ghost predicate Loses(b: Buffer, input: Input) {
    match input
    case EventTimeout => Lossy(b)
    case Telemetry(EventApplied(boardId, Some(event), plan, source)) =>
      && event.boardId == boardId && !plan.fullRefetch
      && b.boardId.Some? && b.boardId != Some(boardId)
      && Lossy(Raise(b, plan, source))
    case _ => false
  }

  ghost predicate Drops(b: Buffer) {
    b.ledger.dropped != NO_FLAGS
  }

  lemma FlushDropsIff(b: Buffer)
    requires Loose(b) && !Drops(b)
    ensures Drops(Flush(b)) <==> Lossy(b)
  {
    if b.events != [] && Accepted(b.events, b.boardId.value) {
      PageOfSome(b.events, b.boardId.value);
    }
  }

  lemma AppliedDropsIff(b: Buffer, event: Event, boardId: string, plan: Plan, source: Source)
    requires Valid(b) && !Drops(b) && event.boardId == boardId
    ensures Drops(Applied(b, event, boardId, plan, source)) <==>
            Loses(b, Telemetry(EventApplied(boardId, Some(event), plan, source)))
  {
    var raised := Raise(b, plan, source);
    assert Loose(raised);
    if plan.fullRefetch {
      assert IsBoundary(ProtocolAnomaly);
      ScheduleFacts(raised, ProtocolAnomaly);
      FlushDropsIff(Schedule(raised, ProtocolAnomaly));
    } else {
      FlushDropsIff(raised);
    }
  }

  /** A handler or callback drops an invalidation exactly when it loses one. */
  lemma ReactDropsIff(b: Buffer, input: Input)
    requires Valid(b) && !Drops(b) && Enabled(b, input)
    ensures Drops(React(b, input)) <==> Loses(b, input)
  {
    match input
    case Telemetry(EventApplied(boardId, event, plan, source)) =>
      if event.None? || event.value.boardId != boardId {
        ScheduleFacts(b, ProtocolAnomaly);
      } else {
        AppliedDropsIff(b, event.value, boardId, plan, source);
      }
    case Telemetry(Control(kind)) =>
      if IsBoundary(kind) {
        ScheduleFacts(b, kind);
      }
    case EventTimeout => FlushDropsIff(b.(eventTimer := false));
    case BoundaryTimeout => FlushFacts(b.(boundaryTimer := Unset, eventTimer := false));
    case NewSession =>
  }

  // ----- how a full refetch comes to be pending without its boundary

  /** A full refetch is pending in an acceptable live batch, and the boundary it scheduled is gone. */
  ghost predicate Stranded(b: Buffer) {
    && b.invalidation.fullRefetch && !b.boundary && !b.boundarySource
    && b.boardId.Some? && Accepted(b.events, b.boardId.value)
  }

  /** The one input that strands: the batch-error callback, which clears the boundary and leaves the pending
      events, at a moment when they are live and carry a full refetch. */
  ghost predicate Strands(b: Buffer, input: Input) {
    && input.BoundaryTimeout? && b.boundaryTimer == ForBatchError && b.boundary
    && b.invalidation.fullRefetch && !b.boundarySource && b.boardId.Some? && Accepted(b.events, b.boardId.value)
  }

  lemma AcceptedPrefix(events: seq<Event>, e: Event, boardId: string)
    requires Accepted(events + [e], boardId)
    ensures Accepted(events, boardId)
  {
    assert forall f :: f in events ==> f in events + [e];
  }

  lemma AppliedStrandsNothing(b: Buffer, event: Event, boardId: string, plan: Plan, source: Source)
    requires Valid(b) && !Stranded(b) && event.boardId == boardId
    ensures !Stranded(Applied(b, event, boardId, plan, source))
  {
    var raised := Raise(b, plan, source);
    assert Loose(raised);
    if plan.fullRefetch {
      assert IsBoundary(ProtocolAnomaly);
      ScheduleFacts(raised, ProtocolAnomaly);
      FlushFacts(Schedule(raised, ProtocolAnomaly));
    } else if raised.boardId.Some? && raised.boardId != Some(boardId) {
      FlushFacts(raised);
    } else if Accepted(b.events + [event], boardId) {
      AcceptedPrefix(b.events, event, boardId);
    }
  }

  lemma OnlyStrandsStrands(b: Buffer, input: Input)
    requires Valid(b) && !Stranded(b) && Enabled(b, input)
    ensures Stranded(React(b, input)) <==> Strands(b, input)
  {
    match input
    case Telemetry(EventApplied(boardId, event, plan, source)) =>
      if event.None? || event.value.boardId != boardId {
        ScheduleFacts(b, ProtocolAnomaly);
      } else {
        AppliedStrandsNothing(b, event.value, boardId, plan, source);
      }
    case Telemetry(Control(kind)) =>
      if IsBoundary(kind) {
        ScheduleFacts(b, kind);
      }
    case EventTimeout => FlushFacts(b.(eventTimer := false));
    case BoundaryTimeout => FlushFacts(b.(boundaryTimer := Unset, eventTimer := false));
    case NewSession =>
  }

  /** Nothing is lost but from a stranded buffer. */
  lemma LosesIsStranded(b: Buffer, input: Input)
    requires Loses(b, input)
    ensures Stranded(b)
  {
  }

  /** A live event that touches the board, accepted into the pending batch, gets its revision bump from the
      event timer if and only if no full refetch was left pending; otherwise nothing is armed that would
      ever bump it. */
  lemma LiveEventIsBumpedIff(b: Buffer, event: Event, plan: Plan)
    requires Valid(b) && !b.boundary && !b.boundarySource
    requires b.boardId.None? || b.boardId == Some(event.boardId)
    requires Accepted(b.events + [event], event.boardId) && !plan.fullRefetch && plan.targets.board
    ensures var later := EventTimerFires(OnTelemetry(b, EventApplied(event.boardId, Some(event), plan, Sse)));
            && (later.revisions.board == b.revisions.board + 1 <==> !b.invalidation.fullRefetch)
            && (b.invalidation.fullRefetch ==>
                  later.ledger.owed.board && later.ledger.dropped.board &&
                  later.invalidation == NO_INVALIDATION && !later.boundary && !later.eventTimer)
  {
    PageOfSome(b.events + [event], event.boardId);
  }
}
