/** What the Explorer keeps between telemetry and its two timers, and how every handler and timer callback
    changes it.  `ExplorerShell` carries these changes out on fields; here they are functions on values.

    `Ledger` is bookkeeping for the proofs and no part of the program: which invalidations were raised by
    applied events and not yet followed by a revision bump, and why. */
module ExplorerBuffer {
  import opened Wrappers
  import opened ExplorerEvents

  datatype Flags = Flags(board: bool, inspector: bool, runs: bool) {
    function Or(other: Flags): Flags {
      Flags(board || other.board, inspector || other.inspector, runs || other.runs)
    }

    function Minus(other: Flags): Flags {
      Flags(board && !other.board, inspector && !other.inspector, runs && !other.runs)
    }
  }

  const NO_FLAGS := Flags(false, false, false)
  const ALL_FLAGS := Flags(true, true, true)

  datatype Invalidation = Invalidation(flags: Flags, fullRefetch: bool)

  const NO_INVALIDATION := Invalidation(NO_FLAGS, false)

  /** An invalidation plan: whether it refetches everything, and which views its targets are mounted in. */
  datatype Plan = Plan(fullRefetch: bool, targets: Flags)

  /** `projectExplorerInvalidation`. */
  function Project(plan: Plan): Invalidation {
    Invalidation(if plan.fullRefetch then ALL_FLAGS else plan.targets, plan.fullRefetch)
  }

  datatype Kind =
    | ConnectionLive | RecoveryStart | RecoveryConnectionRetry
    | RecoveryComplete | PollComplete | PollBoundaryComplete | ProtocolAnomaly | IsolationAnomaly | PollProtocolAnomaly
    | ProtocolAnomalySuppressed | Stalled | TransportFailure | SinkEffectFailure | RecoveryFailure | PollFailure
    | CircuitOpen | DetachedAsyncFailure
    | Unlisted

  datatype Source = Sse | Recovery | Poll | PollBoundary | Unknown

  /** A telemetry entry.  `event` is what `parseBoardEvent` makes of an applied event. */
  datatype Entry =
    | EventApplied(boardId: string, event: Option<Event>, plan: Plan, source: Source)
    | Control(kind: Kind)

  /** `explorerInvalidationTelemetry`, but for applied events. */
  predicate Listened(kind: Kind) {
    kind != Unlisted
  }

  /** `explorerBoundaryTelemetry`. */
  predicate IsBoundary(kind: Kind) {
    kind in {RecoveryComplete, PollComplete, PollBoundaryComplete, ProtocolAnomaly, IsolationAnomaly,
             PollProtocolAnomaly, ProtocolAnomalySuppressed, Stalled, TransportFailure, SinkEffectFailure,
             RecoveryFailure, PollFailure, CircuitOpen, DetachedAsyncFailure}
  }

  /** `coalesceExplorerBoundary`: both deltas are this. */
  predicate HasBoundary(kinds: set<Kind>) {
    exists kind :: kind in kinds && IsBoundary(kind)
  }

  /** The two callbacks that the boundary timer may have been armed with. */
  datatype Timer = Unset | ForBoundary | ForBatchError

  datatype Revisions = Revisions(board: nat, inspector: nat, runs: nat, events: nat)

  datatype Batch = Batch(boardId: string, events: seq<Event>, nextAfter: int)

  datatype Ledger = Ledger(
    owed: Flags,       // raised, and not bumped since
    deferred: Flags,   // of those, in a published batch left to the boundary that follows its source
    dropped: Flags)    // of those, in a published batch that nothing will bump

  datatype Buffer = Buffer(
    events: seq<Event>, boardId: Option<string>, boundary: bool, kinds: set<Kind>,
    invalidation: Invalidation, boundarySource: bool,
    eventTimer: bool, boundaryTimer: Timer,
    revisions: Revisions, batch: Option<Batch>, ledger: Ledger)

  function Initial(): Buffer {
    Buffer([], None, false, {}, NO_INVALIDATION, false, false, Unset, Revisions(0, 0, 0, 0), None,
           Ledger(NO_FLAGS, NO_FLAGS, NO_FLAGS))
  }

  function Plus(n: nat, bump: bool): nat {
    if bump then n + 1 else n
  }

  /** `bumpExplorerRevision`, within one session. */
  function Bump(b: Buffer, targets: Flags, events: bool): Buffer {
    var r := b.revisions;
    b.(revisions := Revisions(Plus(r.board, targets.board), Plus(r.inspector, targets.inspector),
                              Plus(r.runs, targets.runs), Plus(r.events, events)),
       ledger := Ledger(b.ledger.owed.Minus(targets), b.ledger.deferred.Minus(targets),
                        b.ledger.dropped.Minus(targets)))
  }

  function Emptied(b: Buffer): Buffer {
    b.(events := [], boardId := None, invalidation := NO_INVALIDATION, boundarySource := false)
  }

  function Publish(b: Buffer, boardId: string, page: seq<Event>): Buffer
    requires page != []
  {
    b.(batch := Some(Batch(boardId, page, page[|page| - 1].id)))
  }

  function Defer(l: Ledger): Ledger { l.(deferred := l.owed) }

  function Drop(l: Ledger): Ledger { l.(dropped := l.owed) }

  /** A batch that was refused becomes a boundary of its own. */
  function Refuse(b: Buffer): Buffer {
    b.(batch := None, boundary := true, kinds := b.kinds + {ProtocolAnomaly},
       boundaryTimer := if b.boundaryTimer == Unset then ForBatchError else b.boundaryTimer)
  }

  /** What `appendExplorerEventBatch` makes of the pending events: a page, or nothing when it throws. */
  ghost function Appended(b: Buffer): Option<seq<Event>> {
    if b.boardId.Some? && Accepted(b.events, b.boardId.value) then Some(Page(b.events)) else None
  }

  /** `flushEventBatch`, given what became of the pending events. */
  function FlushAs(b: Buffer, appended: Option<seq<Event>>): Buffer {
    if b.events == [] || b.boardId.None? then Emptied(b)
    else if appended.None? then Refuse(Emptied(b))
    else if appended.value == [] then Emptied(b)
    else
      var published := Publish(Emptied(b), b.boardId.value, appended.value);
      if b.boundary then published
      else if b.boundarySource then published.(ledger := Defer(b.ledger))
      else if b.invalidation.fullRefetch then published.(ledger := Drop(b.ledger))
      else Bump(published, b.invalidation.flags, false)
  }

  /** `flushEventBatch`. */
  ghost function Flush(b: Buffer): Buffer {
    FlushAs(b, Appended(b))
  }

  /** Clearing the event timer, if it is set, flushes. */
  ghost function FlushIfTimed(b: Buffer): Buffer {
    if b.eventTimer then Flush(b.(eventTimer := false)) else b
  }

  function Armed(b: Buffer): Buffer {
    if b.boundaryTimer != Unset then b else b.(boundaryTimer := ForBoundary)
  }

  /** `scheduleBoundaryRefresh`. */
  ghost function Schedule(b: Buffer, kind: Kind): Buffer {
    Armed(FlushIfTimed(b.(boundary := true, kinds := b.kinds + {kind})))
  }

  /** The callback that `scheduleBoundaryRefresh` arms. */
  ghost function BoundaryFires(b: Buffer): Buffer {
    var started := b.(boundaryTimer := Unset);
    if !started.boundary then started else
      var flushed := FlushIfTimed(started);
      var cleared := flushed.(boundary := false, kinds := {}, batch := None);
      if HasBoundary(flushed.kinds) then Bump(cleared, ALL_FLAGS, true) else cleared
  }

  /** The callback that a refused batch arms. */
  function BatchErrorFires(b: Buffer): Buffer {
    var started := b.(boundaryTimer := Unset);
    if !started.boundary then started else Bump(started.(boundary := false, kinds := {}), ALL_FLAGS, true)
  }

  ghost function EventTimerFires(b: Buffer): Buffer {
    Flush(b.(eventTimer := false))
  }

  function Raise(b: Buffer, plan: Plan, source: Source): Buffer {
    var raised := Project(plan);
    b.(invalidation := Invalidation(b.invalidation.flags.Or(raised.flags),
                                    b.invalidation.fullRefetch || raised.fullRefetch),
       boundarySource := b.boundarySource || source == Recovery || source == Poll || source == PollBoundary,
       ledger := b.ledger.(owed := b.ledger.owed.Or(raised.flags)))
  }

  function Enqueue(b: Buffer, event: Event, boardId: string): Buffer {
    b.(boardId := Some(boardId), events := b.events + [event], eventTimer := true)
  }

  /** Pending events of another board are flushed first. */
  ghost function SwitchBoard(b: Buffer, boardId: string): Buffer {
    if b.boardId.Some? && b.boardId != Some(boardId) then Flush(b) else b
  }

  /** The branch of `onSessionTelemetry` for a parsed event of the entry's board. */
  ghost function Applied(b: Buffer, event: Event, boardId: string, plan: Plan, source: Source): Buffer {
    var raised := Raise(b, plan, source);
    var scheduled := if plan.fullRefetch then Schedule(raised, ProtocolAnomaly) else raised;
    Enqueue(SwitchBoard(scheduled, boardId), event, boardId)
  }

  /** `onSessionTelemetry`. */
  ghost function OnTelemetry(b: Buffer, entry: Entry): Buffer {
    match entry
    case EventApplied(boardId, event, plan, source) =>
      if event.None? || event.value.boardId != boardId then Schedule(b, ProtocolAnomaly)
      else Applied(b, event.value, boardId, plan, source)
    case Control(kind) =>
      if !Listened(kind) || kind == ConnectionLive || kind == RecoveryStart || kind == RecoveryConnectionRetry then b
      else Schedule(b, kind)
  }

  /** What may happen next.  A timer fires only while it is set; a changed session key starts over. */
  datatype Input = Telemetry(entry: Entry) | EventTimeout | BoundaryTimeout | NewSession

  predicate Enabled(b: Buffer, input: Input) {
    match input
    case EventTimeout => b.eventTimer
    case BoundaryTimeout => b.boundaryTimer != Unset
    case _ => true
  }

  ghost function React(b: Buffer, input: Input): Buffer {
    match input
    case Telemetry(entry) => OnTelemetry(b, entry)
    case EventTimeout => EventTimerFires(b)
    case BoundaryTimeout => if b.boundaryTimer == ForBatchError then BatchErrorFires(b) else BoundaryFires(b)
    case NewSession => Initial()
  }
}
