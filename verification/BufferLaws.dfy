/** What every handler and timer of the Explorer buffer does to the pending events, the published batch and
    the revisions, told without the functions that do it. */
module BufferLaws {
  import opened Wrappers
  import opened ExplorerEvents
  import opened BatchLaws
  import opened ExplorerBuffer
  import opened BufferInvariants

  // ----- what a flush publishes

  /** The first event of its id. */
  ghost predicate IsFirst(events: seq<Event>, e: Event) {
    exists i :: 0 <= i < |events| && events[i] == e && forall j :: 0 <= j < i ==> events[j].id != e.id
  }

  /** The id is in the list, or the list is a full page of larger ids. */
  ghost predicate ShownOrOlder(shown: seq<Event>, id: int) {
    || (exists e :: e in shown && e.id == id)
    || (|shown| == 150 && forall e :: e in shown ==> id < e.id)
  }

  /** The batch shows these events: the first of each id, ascending, but for those older than a full page; and
      reading goes on after its last. */
  ghost predicate Shows(batch: Option<Batch>, events: seq<Event>, boardId: string) {
    && batch.Some? && batch.value.boardId == boardId && batch.value.events != []
    && StrictlyAscending(batch.value.events)
    && (forall e :: e in batch.value.events ==> IsFirst(events, e))
    && (forall f :: f in events ==> ShownOrOlder(batch.value.events, f.id))
    && batch.value.nextAfter == batch.value.events[|batch.value.events| - 1].id
  }

  lemma {:induction false} FirstByIdIsFirst(events: seq<Event>, k: int)
    requires k in FirstById(events)
    ensures IsFirst(events, FirstById(events)[k]) && FirstById(events)[k].id == k
  {
    var init, last := events[..|events| - 1], events[|events| - 1];
    assert events == init + [last];
    if k in FirstById(init) {
      FirstByIdIsFirst(init, k);
      var i :| 0 <= i < |init| && init[i] == FirstById(init)[k] && forall j :: 0 <= j < i ==> init[j].id != k;
      assert events[i] == init[i] && forall j :: 0 <= j < i ==> events[j] == init[j];
    } else {
      FirstByIdFacts(init);
      assert events[|init|] == last && forall j :: 0 <= j < |init| ==> events[j] == init[j] && init[j] in init;
    }
  }

  lemma PageShows(events: seq<Event>, boardId: string)
    requires events != [] && Accepted(events, boardId)
    ensures var page := Page(events);
            page != [] && Shows(Some(Batch(boardId, page, page[|page| - 1].id)), events, boardId)
  {
    var page, m := Page(events), FirstById(events);
    PageOfSome(events, boardId);
    PageFacts(events);
    FirstByIdFacts(events);
    forall e | e in page ensures IsFirst(events, e) {
      FirstByIdIsFirst(events, e.id);
    }
    forall f | f in events ensures ShownOrOlder(page, f.id) {
      FirstByIdIsFirst(events, f.id);
      if m[f.id] !in page {
        OffThePage(m, BOARD_EVENTS_PAGE_LIMIT, f.id);
      }
    }
  }

  // ----- the pending events

  /** Every listed kind closes what was pending, but the one that reports a live connection and the two that
      announce a recovery. */
  predicate Closes(kind: Kind) {
    kind !in {ConnectionLive, RecoveryStart, RecoveryConnectionRetry, Unlisted}
  }

  /** An event that parses and belongs to the entry's board. */
  predicate Fits(entry: Entry) {
    entry.EventApplied? && entry.event.Some? && entry.event.value.boardId == entry.boardId
  }

  /** The moments at which pending events leave the buffer. */
  predicate Flushes(b: Buffer, input: Input) {
    match input
    case EventTimeout => true
    case BoundaryTimeout => b.boundary && b.boundaryTimer == ForBoundary
    case Telemetry(Control(kind)) => Closes(kind)
    case Telemetry(EventApplied(boardId, event, plan, source)) =>
      !Fits(input.entry) || plan.fullRefetch || (b.boardId.Some? && b.boardId != Some(boardId))
    case NewSession => true
  }

  /** The events that an input adds. */
  function Added(input: Input): seq<Event> {
    if input.Telemetry? && Fits(input.entry) then [input.entry.event.value] else []
  }

  /** What becomes of the batch on display when pending events leave. */
  ghost predicate BatchFollows(b: Buffer, input: Input, after: Buffer) {
    if input.NewSession? then after.batch == None
    else if input.BoundaryTimeout? then after.batch == if Flushes(b, input) then None else b.batch
    else if !Flushes(b, input) then after.batch == b.batch
    else ShownOrRefused(b, after)
  }

  /** What the batch is after pending events have left outside the callbacks. */
  ghost predicate ShownOrRefused(b: Buffer, after: Buffer) {
    if b.events == [] then after.batch == b.batch
    else if b.boardId.Some? && Accepted(b.events, b.boardId.value) then Shows(after.batch, b.events, b.boardId.value)
    else after.batch == None && after.boundary
  }

  lemma FlushShows(b: Buffer)
    requires Loose(b)
    ensures Flush(b).events == [] && Flush(b).boardId == None && ShownOrRefused(b, Flush(b))
  {
    if b.events != [] && Accepted(b.events, b.boardId.value) {
      PageShows(b.events, b.boardId.value);
    }
  }

  lemma ScheduleShows(b: Buffer, kind: Kind)
    requires Loose(b) && (b.eventTimer <==> b.events != [])
    ensures Schedule(b, kind).events == [] && Schedule(b, kind).boardId == None && ShownOrRefused(b, Schedule(b, kind))
  {
    FlushShows(b.(boundary := true, kinds := b.kinds + {kind}, eventTimer := false));
  }

  lemma AppliedEvents(b: Buffer, event: Event, boardId: string, plan: Plan, source: Source)
    requires Valid(b) && event.boardId == boardId
    ensures var input, after := Telemetry(EventApplied(boardId, Some(event), plan, source)),
                                Applied(b, event, boardId, plan, source);
            && after.events == (if Flushes(b, input) then [] else b.events) + [event]
            && BatchFollows(b, input, after)
  {
    var raised := Raise(b, plan, source);
    assert Loose(raised);
    if plan.fullRefetch {
      ScheduleShows(raised, ProtocolAnomaly);
    } else {
      FlushShows(raised);
    }
    assert [] + [event] == [event];
  }

  lemma TimersEmpty(b: Buffer, input: Input)
    requires Valid(b) && Enabled(b, input) && (input.EventTimeout? || input.BoundaryTimeout?)
    ensures React(b, input).events == if Flushes(b, input) then [] else b.events
    ensures BatchFollows(b, input, React(b, input))
  {
    if input.EventTimeout? {
      FlushShows(b.(eventTimer := false));
    } else {
      FlushShows(b.(boundaryTimer := Unset, eventTimer := false));
    }
  }

  /** Pending events stay until they are flushed, in the order in which they were applied; and a flush shows
      them, unless they contradict each other or a boundary discards the display for a full reading. */
  lemma EventsAreKeptOrShown(b: Buffer, input: Input)
    requires Valid(b) && Enabled(b, input)
    ensures React(b, input).events == (if Flushes(b, input) then [] else b.events) + Added(input)
    ensures BatchFollows(b, input, React(b, input))
  {
    match input
    case Telemetry(EventApplied(boardId, event, plan, source)) =>
      if Fits(input.entry) {
        AppliedEvents(b, event.value, boardId, plan, source);
      } else {
        ScheduleShows(b, ProtocolAnomaly);
      }
    case Telemetry(Control(kind)) =>
      if Closes(kind) {
        ScheduleShows(b, kind);
      }
    case NewSession =>
    case _ => TimersEmpty(b, input);
  }

  // ----- revisions and what is owed

  /** An applied event that a recovery or a poll brought: its batch is left to the boundary that follows. */
  predicate Marked(input: Input) {
    input.Telemetry? && Fits(input.entry) && input.entry.source in {Recovery, Poll, PollBoundary}
  }

  /** The views that an applied event makes stale. */
  function Stale(input: Input): Flags {
    if input.Telemetry? && Fits(input.entry) then
      if input.entry.plan.fullRefetch then Flags(true, true, true) else input.entry.plan.targets
    else Flags(false, false, false)
  }

  predicate AsksForAll(input: Input) {
    input.Telemetry? && Fits(input.entry) && input.entry.plan.fullRefetch
  }

  /** A flush of these events would refresh just the views they make stale. */
  ghost predicate Live(b: Buffer) {
    && b.boardId.Some? && Accepted(b.events, b.boardId.value)
    && !b.boundary && !b.boundarySource && !b.invalidation.fullRefetch
  }

  /** The views whose revision an input raises. */
  ghost function Refreshed(b: Buffer, input: Input): Flags {
    if input.BoundaryTimeout? then Flags(b.boundary, b.boundary, b.boundary)
    else if input.EventTimeout? && Live(b) then b.invalidation.flags
    else if input.Telemetry? && Fits(input.entry) && Flushes(b, input) && !AsksForAll(input) && !Marked(input)
      && Live(b) then
      b.invalidation.flags.Or(Stale(input))
    else Flags(false, false, false)
  }

  ghost predicate RevisionsFollow(b: Buffer, input: Input, after: Buffer) {
    var r, f := b.revisions, Refreshed(b, input);
    && after.revisions.board == r.board + (if f.board then 1 else 0)
    && after.revisions.inspector == r.inspector + (if f.inspector then 1 else 0)
    && after.revisions.runs == r.runs + (if f.runs then 1 else 0)
    && after.revisions.events == r.events + (if input.BoundaryTimeout? && b.boundary then 1 else 0)
  }

  /** A flag is owed exactly when it was owed or is raised, and its revision is not raised now. */
  ghost predicate OwedFollows(b: Buffer, input: Input, after: Buffer) {
    var owed, raised, r, r' := b.ledger.owed, Stale(input), b.revisions, after.revisions;
    && (after.ledger.owed.board <==> (owed.board || raised.board) && r'.board == r.board)
    && (after.ledger.owed.inspector <==> (owed.inspector || raised.inspector) && r'.inspector == r.inspector)
    && (after.ledger.owed.runs <==> (owed.runs || raised.runs) && r'.runs == r.runs)
  }

  /** What is pending is what the pending events raised. */
  ghost predicate InvalidationFollows(b: Buffer, input: Input, after: Buffer) {
    if Flushes(b, input) && b.events != [] then after.invalidation == NO_INVALIDATION && !after.boundarySource
    else
      && after.invalidation.flags == b.invalidation.flags.Or(Stale(input))
      && (after.invalidation.fullRefetch <==> b.invalidation.fullRefetch || AsksForAll(input))
      && (after.boundarySource <==> b.boundarySource || Marked(input))
  }

  ghost predicate Follows(b: Buffer, input: Input, after: Buffer) {
    RevisionsFollow(b, input, after) && OwedFollows(b, input, after) && InvalidationFollows(b, input, after)
  }

  /** The revisions rise by these flags, which are no longer owed; nothing stays pending. */
  ghost predicate Pays(b: Buffer, after: Buffer, f: Flags) {
    && after.invalidation == NO_INVALIDATION && !after.boundarySource
    && after.revisions == Revisions(b.revisions.board + (if f.board then 1 else 0),
                                    b.revisions.inspector + (if f.inspector then 1 else 0),
                                    b.revisions.runs + (if f.runs then 1 else 0), b.revisions.events)
    && after.ledger.owed == Flags(b.ledger.owed.board && !f.board, b.ledger.owed.inspector && !f.inspector,
                                  b.ledger.owed.runs && !f.runs)
  }

  lemma FlushAsPays(b: Buffer, page: seq<Event>)
    requires b.events != [] && b.boardId.Some? && page != []
    ensures Pays(b, FlushAs(b, Some(page)), if b.boundary || b.boundarySource || b.invalidation.fullRefetch
                                            then Flags(false, false, false) else b.invalidation.flags)
  {
  }

  lemma FlushPays(b: Buffer)
    requires Loose(b)
    ensures Pays(b, Flush(b), if Live(b) then b.invalidation.flags else Flags(false, false, false))
  {
    if b.events != [] && Accepted(b.events, b.boardId.value) {
      PageOfSome(b.events, b.boardId.value);
      FlushAsPays(b, Page(b.events));
    }
  }

  lemma SchedulePays(b: Buffer, kind: Kind)
    requires Loose(b)
    ensures var after := Schedule(b, kind);
            && after.revisions == b.revisions && after.ledger.owed == b.ledger.owed
            && (b.eventTimer ==> after.invalidation == NO_INVALIDATION && !after.boundarySource)
            && (!b.eventTimer ==> after.invalidation == b.invalidation && after.boundarySource == b.boundarySource)
            && (!b.eventTimer ==> after.boardId == b.boardId)
  {
    FlushPays(b.(boundary := true, kinds := b.kinds + {kind}, eventTimer := false));
  }

  lemma FullRefetchPays(b: Buffer, event: Event, boardId: string, plan: Plan, source: Source)
    requires Valid(b) && event.boardId == boardId && plan.fullRefetch
    ensures Follows(b, Telemetry(EventApplied(boardId, Some(event), plan, source)),
                    Applied(b, event, boardId, plan, source))
  {
    var raised := Raise(b, plan, source);
    assert Loose(raised);
    SchedulePays(raised, ProtocolAnomaly);
    ScheduleShows(raised, ProtocolAnomaly);
  }

  lemma SameBoardPays(b: Buffer, event: Event, boardId: string, plan: Plan, source: Source)
    requires Valid(b) && event.boardId == boardId && !plan.fullRefetch
             && (b.boardId.None? || b.boardId == Some(boardId))
    ensures Follows(b, Telemetry(EventApplied(boardId, Some(event), plan, source)),
                    Applied(b, event, boardId, plan, source))
  {
  }

  lemma LiveWhenRaised(b: Buffer, plan: Plan, source: Source)
    requires !plan.fullRefetch
    ensures Live(Raise(b, plan, source)) <==> Live(b) && source !in {Recovery, Poll, PollBoundary}
    ensures Raise(b, plan, source).invalidation.flags == b.invalidation.flags.Or(plan.targets)
  {
  }

  lemma OtherBoardPays(b: Buffer, event: Event, boardId: string, plan: Plan, source: Source)
    requires Valid(b) && event.boardId == boardId && !plan.fullRefetch && b.boardId.Some? && b.boardId != Some(boardId)
    ensures Follows(b, Telemetry(EventApplied(boardId, Some(event), plan, source)),
                    Applied(b, event, boardId, plan, source))
  {
    var input, raised := Telemetry(EventApplied(boardId, Some(event), plan, source)), Raise(b, plan, source);
    assert Loose(raised);
    LiveWhenRaised(b, plan, source);
    FlushPays(raised);
    PaidFollows(b, input, raised, Flush(raised));
    assert Follows(b, input, Enqueue(Flush(raised), event, boardId));
  }

  lemma PaidFollows(b: Buffer, input: Input, raised: Buffer, after: Buffer)
    requires input.Telemetry? && Fits(input.entry) && Flushes(b, input) && !AsksForAll(input) && b.events != []
    requires raised.revisions == b.revisions && raised.ledger.owed == b.ledger.owed.Or(Stale(input))
    requires Pays(raised, after, if Live(b) && !Marked(input) then b.invalidation.flags.Or(Stale(input))
             else Flags(false, false, false))
    ensures Follows(b, input, after)
  {
  }

  lemma AppliedPays(b: Buffer, event: Event, boardId: string, plan: Plan, source: Source)
    requires Valid(b) && event.boardId == boardId
    ensures Follows(b, Telemetry(EventApplied(boardId, Some(event), plan, source)),
                    Applied(b, event, boardId, plan, source))
  {
    if plan.fullRefetch {
      FullRefetchPays(b, event, boardId, plan, source);
    } else if b.boardId.None? || b.boardId == Some(boardId) {
      SameBoardPays(b, event, boardId, plan, source);
    } else {
      OtherBoardPays(b, event, boardId, plan, source);
    }
  }

  lemma TimersPay(b: Buffer, input: Input)
    requires Valid(b) && Enabled(b, input) && (input.EventTimeout? || input.BoundaryTimeout?)
    ensures Follows(b, input, React(b, input))
  {
    if input.EventTimeout? {
      FlushPays(b.(eventTimer := false));
    } else {
      BoundaryPaysEverything(b);
      FlushPays(b.(boundaryTimer := Unset, eventTimer := false));
    }
  }

  /** Revisions rise by exactly the views that live events made stale when their batch is flushed, and all of
      them once when a boundary is; a flag is owed until then and no longer. */
  lemma RefreshesAreExact(b: Buffer, input: Input)
    requires Valid(b) && Enabled(b, input) && !input.NewSession?
    ensures Follows(b, input, React(b, input))
  {
    match input
    case Telemetry(EventApplied(boardId, event, plan, source)) =>
      if Fits(input.entry) {
        AppliedPays(b, event.value, boardId, plan, source);
      } else {
        SchedulePays(b, ProtocolAnomaly);
      }
    case Telemetry(Control(kind)) =>
      if Closes(kind) {
        SchedulePays(b, kind);
      }
    case _ => TimersPay(b, input);
  }

  // ----- boundaries

  /** A flush outside the boundary callback meets events that contradict each other. */
  ghost predicate Refuses(b: Buffer, input: Input) {
    && Flushes(b, input) && !input.BoundaryTimeout? && !input.NewSession?
    && b.boardId.Some? && !Accepted(b.events, b.boardId.value)
  }

  /** The inputs that open a boundary, or keep it open. */
  ghost predicate OpensBoundary(b: Buffer, input: Input) {
    || Refuses(b, input)
    || AsksForAll(input)
    || (input.Telemetry? && input.entry.Control? && Closes(input.entry.kind))
    || (input.Telemetry? && input.entry.EventApplied? && !Fits(input.entry))
  }

  lemma FlushOpens(b: Buffer)
    requires Loose(b)
    ensures Flush(b).boundary <==> b.boundary || (b.boardId.Some? && !Accepted(b.events, b.boardId.value))
  {
    if b.events != [] && Accepted(b.events, b.boardId.value) {
      PageOfSome(b.events, b.boardId.value);
    }
  }

  /** A boundary is pending from the input that opens it to its callback, which closes it, and at no other time. */
  lemma BoundariesAreExact(b: Buffer, input: Input)
    requires Valid(b) && Enabled(b, input)
    ensures React(b, input).boundary <==>
            OpensBoundary(b, input) || (b.boundary && !input.BoundaryTimeout? && !input.NewSession?)
  {
    match input
    case Telemetry(EventApplied(boardId, event, plan, source)) =>
      if Fits(input.entry) {
        AppliedOpens(b, event.value, boardId, plan, source);
      }
    case EventTimeout => FlushOpens(b.(eventTimer := false));
    case BoundaryTimeout => BoundaryPaysEverything(b);
    case _ =>
  }

  lemma AppliedOpens(b: Buffer, event: Event, boardId: string, plan: Plan, source: Source)
    requires Valid(b) && event.boardId == boardId
    ensures Applied(b, event, boardId, plan, source).boundary <==>
            b.boundary || OpensBoundary(b, Telemetry(EventApplied(boardId, Some(event), plan, source)))
  {
    var raised := Raise(b, plan, source);
    assert Loose(raised);
    if plan.fullRefetch {
      assert IsBoundary(ProtocolAnomaly);
      ScheduleFacts(raised, ProtocolAnomaly);
      FlushFacts(Schedule(raised, ProtocolAnomaly));
    } else {
      FlushOpens(raised);
    }
  }

  // ----- timers

  /** Which of the two callbacks the boundary timer waits for. */
  ghost predicate TimerFollows(b: Buffer, input: Input, after: Buffer) {
    if input.NewSession? then after.boundaryTimer == Unset
    else if input.BoundaryTimeout? then
      after.boundaryTimer == if Flushes(b, input) && b.boardId.Some? && !Accepted(b.events, b.boardId.value)
                             then ForBatchError else Unset
    else if b.boundaryTimer != Unset then after.boundaryTimer == b.boundaryTimer
    else after.boundaryTimer == if Refuses(b, input) then ForBatchError
                                else if OpensBoundary(b, input) then ForBoundary else Unset
  }

  lemma FlushArms(b: Buffer)
    requires Loose(b)
    ensures Flush(b).boundaryTimer ==
            if b.boundaryTimer == Unset && b.boardId.Some? && !Accepted(b.events, b.boardId.value) then ForBatchError
            else b.boundaryTimer
  {
    if b.events != [] && Accepted(b.events, b.boardId.value) {
      PageOfSome(b.events, b.boardId.value);
    }
  }

  lemma ScheduleArms(b: Buffer, kind: Kind)
    requires Loose(b) && (b.eventTimer <==> b.events != [])
    ensures Schedule(b, kind).boundaryTimer ==
            if b.boundaryTimer != Unset then b.boundaryTimer
            else if b.boardId.Some? && !Accepted(b.events, b.boardId.value) then ForBatchError else ForBoundary
  {
    FlushArms(b.(boundary := true, kinds := b.kinds + {kind}, eventTimer := false));
  }

  lemma AppliedArms(b: Buffer, event: Event, boardId: string, plan: Plan, source: Source)
    requires Valid(b) && event.boardId == boardId
    ensures TimerFollows(b, Telemetry(EventApplied(boardId, Some(event), plan, source)),
                         Applied(b, event, boardId, plan, source))
  {
    var raised := Raise(b, plan, source);
    assert Loose(raised);
    if plan.fullRefetch {
      ScheduleArms(raised, ProtocolAnomaly);
      ScheduleShows(raised, ProtocolAnomaly);
    } else {
      FlushArms(raised);
    }
  }

  /** The boundary timer is set by what opens a boundary, for the refusing callback if a batch is refused then, and
      keeps its callback until it fires. */
  lemma TimersAreExact(b: Buffer, input: Input)
    requires Valid(b) && Enabled(b, input)
    ensures TimerFollows(b, input, React(b, input))
    ensures React(b, input).eventTimer <==> React(b, input).events != []
  {
    ReactKeepsValid(b, input);
    match input
    case Telemetry(EventApplied(boardId, event, plan, source)) =>
      if Fits(input.entry) {
        AppliedArms(b, event.value, boardId, plan, source);
      } else {
        ScheduleArms(b, ProtocolAnomaly);
      }
    case Telemetry(Control(kind)) =>
      if Closes(kind) {
        ScheduleArms(b, kind);
      }
    case EventTimeout => FlushArms(b.(eventTimer := false));
    case BoundaryTimeout => FlushArms(b.(boundaryTimer := Unset, eventTimer := false));
    case NewSession =>
  }
}
