/** Whole runs of the Explorer buffer: any handlers and timers, in any order in which they can happen. */
module BufferRuns {
  import opened Wrappers
  import opened Json
  import opened ExplorerEvents
  import opened ExplorerBuffer
  import opened BufferInvariants

  ghost function After(b: Buffer, inputs: seq<Input>): Buffer {
    if inputs == [] then b else React(After(b, inputs[..|inputs| - 1]), inputs[|inputs| - 1])
  }

  ghost predicate Possible(b: Buffer, inputs: seq<Input>) {
    inputs == [] ||
    (Possible(b, inputs[..|inputs| - 1]) && Enabled(After(b, inputs[..|inputs| - 1]), inputs[|inputs| - 1]))
  }

  /** No invalidation was dropped at any moment of the run. */
  ghost predicate NeverDrops(b: Buffer, inputs: seq<Input>) {
    !Drops(After(b, inputs)) && (inputs == [] || NeverDrops(b, inputs[..|inputs| - 1]))
  }

  ghost predicate NeverLoses(b: Buffer, inputs: seq<Input>) {
    inputs == [] ||
    (NeverLoses(b, inputs[..|inputs| - 1]) && !Loses(After(b, inputs[..|inputs| - 1]), inputs[|inputs| - 1]))
  }

  ghost predicate NeverStrands(b: Buffer, inputs: seq<Input>) {
    inputs == [] ||
    (NeverStrands(b, inputs[..|inputs| - 1]) && !Strands(After(b, inputs[..|inputs| - 1]), inputs[|inputs| - 1]))
  }

  /** Nothing is armed: no timer will ever run unless new telemetry arrives. */
  predicate Quiet(b: Buffer) {
    !b.eventTimer && b.boundaryTimer == Unset
  }

  /** The invariants hold after every run; and once both timers have fired and no marked batch waits for its
      boundary, the raised flags that were never bumped are exactly those that were dropped. */
  lemma {:induction false} RunsKeepInvariants(inputs: seq<Input>)
    requires Possible(Initial(), inputs)
    ensures var b := After(Initial(), inputs);
            && Valid(b) && Accounted(b) && Recorded(b.ledger)
            && (Quiet(b) && b.ledger.deferred == NO_FLAGS ==> b.ledger.owed == b.ledger.dropped)
  {
    if inputs != [] {
      var init := inputs[..|inputs| - 1];
      RunsKeepInvariants(init);
      ReactKeepsValid(After(Initial(), init), inputs[|inputs| - 1]);
      ReactKeepsAccounted(After(Initial(), init), inputs[|inputs| - 1]);
      ReactKeepsRecorded(After(Initial(), init), inputs[|inputs| - 1]);
    }
  }

  /** A run drops no invalidation, at any moment, exactly when none of its inputs flushes a full refetch that
      is pending without its boundary; and then every raised flag has been bumped once the timers have fired
      and no batch is left to a boundary. */
  lemma {:induction false} NothingIsLostIff(inputs: seq<Input>)
    requires Possible(Initial(), inputs)
    ensures NeverDrops(Initial(), inputs) <==> NeverLoses(Initial(), inputs)
    ensures var b := After(Initial(), inputs);
            NeverDrops(Initial(), inputs) && Quiet(b) && b.ledger.deferred == NO_FLAGS ==> b.ledger.owed == NO_FLAGS
  {
    RunsKeepInvariants(inputs);
    if inputs != [] {
      var init := inputs[..|inputs| - 1];
      NothingIsLostIff(init);
      RunsKeepInvariants(init);
      if NeverDrops(Initial(), init) {
        ReactDropsIff(After(Initial(), init), inputs[|inputs| - 1]);
      }
    }
  }

  /** The cause of every loss is a batch-error callback that runs while a live full refetch is pending. */
  lemma {:induction false} OnlyStrandingLoses(inputs: seq<Input>)
    requires Possible(Initial(), inputs) && NeverStrands(Initial(), inputs)
    ensures !Stranded(After(Initial(), inputs)) && NeverLoses(Initial(), inputs)
  {
    if inputs != [] {
      var init, input := inputs[..|inputs| - 1], inputs[|inputs| - 1];
      OnlyStrandingLoses(init);
      RunsKeepInvariants(init);
      OnlyStrandsStrands(After(Initial(), init), input);
      if Loses(After(Initial(), init), input) {
        LosesIsStranded(After(Initial(), init), input);
      }
    }
  }

  /** A plan that touches the board and nothing else. */
  const BOARD_PLAN := Plan(false, Flags(true, false, false))

  function BoardEvent(event: Event): Input {
    Telemetry(EventApplied(event.boardId, Some(event), BOARD_PLAN, Sse))
  }

  lemma RepetitionIsAccepted(events: seq<Event>, boardId: string)
    requires events != [] && Accepted(events, boardId)
    ensures Accepted(events + [events[0]], boardId)
  {
    assert forall e :: e in events + [events[0]] ==> e in events;
  }

  /** Every such callback can lead to a loss: a live event that touches the board may follow it, and the event
      timer then drops its invalidation; both timers have fired and nothing was deferred. */
  lemma StrandingLosesAnEvent(inputs: seq<Input>) returns (event: Event)
    requires Possible(Initial(), inputs) && Strands(After(Initial(), inputs), BoundaryTimeout)
    ensures var run := inputs + [BoundaryTimeout, BoardEvent(event), EventTimeout];
            && Possible(Initial(), run)
            && After(Initial(), run).ledger == Ledger(BOARD_PLAN.targets, NO_FLAGS, BOARD_PLAN.targets)
            && Quiet(After(Initial(), run))
  {
    var b := After(Initial(), inputs);
    RunsKeepInvariants(inputs);
    event := b.events[0];
    RepetitionIsAccepted(b.events, event.boardId);
    var fired := React(b, BoundaryTimeout);
    LiveEventIsBumpedIff(fired, event, BOARD_PLAN);
    PageOfSome(fired.events + [event], event.boardId);
    AfterThree(Initial(), inputs, BoundaryTimeout, BoardEvent(event), EventTimeout);
  }

  lemma AfterOne(b: Buffer, inputs: seq<Input>, x: Input)
    ensures After(b, inputs + [x]) == React(After(b, inputs), x)
    ensures Possible(b, inputs + [x]) <==> Possible(b, inputs) && Enabled(After(b, inputs), x)
  {
    assert (inputs + [x])[..|inputs|] == inputs;
  }

  lemma AfterThree(b: Buffer, inputs: seq<Input>, x: Input, y: Input, z: Input)
    ensures var one := React(After(b, inputs), x);
            var run := inputs + [x, y, z];
            && After(b, run) == React(React(one, y), z)
            && (Possible(b, run) <==>
                  Possible(b, inputs) && Enabled(After(b, inputs), x) && Enabled(one, y) && Enabled(React(one, y), z))
  {
    AfterOne(b, inputs, x);
    AfterOne(b, inputs + [x], y);
    AfterOne(b, inputs + [x] + [y], z);
    assert inputs + [x] + [y] + [z] == inputs + [x, y, z];
  }

  // ----- a concrete run that loses an invalidation

  function SampleEvent(id: int, eventId: string): Event {
    Event(id, eventId, "b", Null)
  }

  function Sample(id: int, eventId: string, fullRefetch: bool): Input {
    Telemetry(EventApplied("b", Some(SampleEvent(id, eventId)), Plan(fullRefetch, Flags(true, false, false)), Sse))
  }

  /** Two events that share an id make the event timer refuse their batch; before the batch-error callback
      runs, an event of unknown kind arrives. */
  function StrandingRun(): seq<Input> {
    [Sample(1, "x", false), Sample(1, "y", false), EventTimeout, Sample(2, "z", true)]
  }

  lemma TwoPending() returns (two: Buffer)
    ensures two == React(React(Initial(), Sample(1, "x", false)), Sample(1, "y", false))
    ensures two.events == [SampleEvent(1, "x"), SampleEvent(1, "y")] && two.boardId == Some("b") && two.eventTimer
    ensures two.boundaryTimer == Unset && two.ledger.deferred == NO_FLAGS
  {
    var one := React(Initial(), Sample(1, "x", false));
    assert one.events == [SampleEvent(1, "x")] && one.boardId == Some("b");
    two := React(one, Sample(1, "y", false));
    assert two.events == [SampleEvent(1, "x")] + [SampleEvent(1, "y")];
  }

  lemma SharedIdIsRefused(b: Buffer)
    requires b.events == [SampleEvent(1, "x"), SampleEvent(1, "y")] && b.boardId == Some("b")
    ensures Appended(b) == None
  {
    assert !Compatible(b.events[0], b.events[1]);
  }

  lemma RefusedBatch() returns (b: Buffer)
    ensures b == After(Initial(), StrandingRun()[..3]) && Possible(Initial(), StrandingRun()[..3])
    ensures b.boundary && b.boundaryTimer == ForBatchError && b.events == [] && !b.eventTimer && b.boardId == None
    ensures b.invalidation == NO_INVALIDATION && !b.boundarySource && b.ledger.deferred == NO_FLAGS
  {
    var r := StrandingRun();
    AfterThree(Initial(), [], r[0], r[1], r[2]);
    assert [] + [r[0], r[1], r[2]] == r[..3];
    var two := TwoPending();
    SharedIdIsRefused(two.(eventTimer := false));
    b := React(two, r[2]);
  }

  lemma StrandingRunStrands()
    ensures Possible(Initial(), StrandingRun())
    ensures var b := After(Initial(), StrandingRun());
            Strands(b, BoundaryTimeout)
  {
    var r := StrandingRun();
    var refused := RefusedBatch();
    AfterOne(Initial(), r[..3], r[3]);
    assert r[..3] + [r[3]] == r;
    var b := React(refused, r[3]);
    assert b.events == [SampleEvent(2, "z")];
    assert !IsJsSpace("z"[0]);
    assert Accepted(b.events, "b");
  }

  /** So the code does lose invalidations: there is a run after which nothing is armed, no batch is marked
      for a boundary, and the board flag of an applied event was never followed by a bump. */
  lemma SomeRunLosesAnInvalidation() returns (run: seq<Input>)
    ensures Possible(Initial(), run)
    ensures var b := After(Initial(), run);
            b.ledger.owed.board && b.ledger.dropped.board && b.ledger.deferred == NO_FLAGS && Quiet(b)
  {
    StrandingRunStrands();
    var event := StrandingLosesAnEvent(StrandingRun());
    run := StrandingRun() + [BoundaryTimeout, BoardEvent(event), EventTimeout];
  }

  // ----- a burst of boundaries is one refresh

  ghost predicate BeforeTheCallback(inputs: seq<Input>) {
    forall i :: 0 <= i < |inputs| ==> inputs[i].Telemetry? || inputs[i].EventTimeout?
  }

  lemma EventTimerWaitsForBoundary(b: Buffer)
    requires Valid(b) && b.boundary && b.eventTimer
    ensures var f := EventTimerFires(b); f.boundary && f.revisions == b.revisions && f.boundaryTimer == b.boundaryTimer
  {
    FlushFacts(b.(eventTimer := false));
  }

  /** While a boundary is pending nothing is bumped, whatever telemetry arrives and whenever the event timer
      fires; the callback then bumps every revision exactly once and settles every flag. */
  lemma {:induction false} BurstIsOneRefresh(b: Buffer, inputs: seq<Input>)
    requires Valid(b) && b.boundary && BeforeTheCallback(inputs) && Possible(b, inputs)
    ensures var c := After(b, inputs);
            && Valid(c) && c.boundary && c.revisions == b.revisions && c.boundaryTimer == b.boundaryTimer
    ensures var r, done := b.revisions, React(After(b, inputs), BoundaryTimeout);
            && done.revisions == Revisions(r.board + 1, r.inspector + 1, r.runs + 1, r.events + 1)
            && done.ledger == Ledger(NO_FLAGS, NO_FLAGS, NO_FLAGS)
  {
    if inputs != [] {
      var init, input := inputs[..|inputs| - 1], inputs[|inputs| - 1];
      BurstIsOneRefresh(b, init);
      var c := After(b, init);
      ReactKeepsValid(c, input);
      match input
      case Telemetry(entry) => TelemetryKeepsValid(c, entry);
      case EventTimeout => EventTimerWaitsForBoundary(c);
      case _ =>
    }
    BoundaryPaysEverything(After(b, inputs));
  }

  /** The telemetry that opens a burst bumps nothing either, whether it is a boundary, an anomaly, or an event
      that asks for a full refetch or whose other-board predecessors are refused, even when it flushes events. */
  lemma OpeningBumpsNothing(b: Buffer, entry: Entry)
    requires Valid(b) && OnTelemetry(b, entry).boundary
    ensures var c := OnTelemetry(b, entry); Valid(c) && c.revisions == b.revisions
  {
    TelemetryKeepsValid(b, entry);
    match entry
    case EventApplied(boardId, event, plan, source) =>
      if event.None? || event.value.boardId != boardId {
        ScheduleFacts(b, ProtocolAnomaly);
      } else {
        AppliedOpening(b, event.value, boardId, plan, source);
      }
    case Control(kind) =>
      if IsBoundary(kind) {
        ScheduleFacts(b, kind);
      }
  }

  lemma AppliedOpening(b: Buffer, event: Event, boardId: string, plan: Plan, source: Source)
    requires Valid(b) && event.boardId == boardId && Applied(b, event, boardId, plan, source).boundary
    ensures Applied(b, event, boardId, plan, source).revisions == b.revisions
  {
    var raised := Raise(b, plan, source);
    var scheduled := if plan.fullRefetch then Schedule(raised, ProtocolAnomaly) else raised;
    assert Loose(raised) && IsBoundary(ProtocolAnomaly);
    ScheduleFacts(raised, ProtocolAnomaly);
    FlushFacts(scheduled);
    FlushUnderBoundary(scheduled);
  }

  lemma FlushUnderBoundary(b: Buffer)
    requires Flush(b).boundary
    ensures Flush(b).revisions == b.revisions
  {
  }
}
