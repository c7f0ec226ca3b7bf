/** What becomes of events and invalidations over whole runs of the Explorer buffer. */
module BufferHistory {
  import opened Wrappers
  import opened ExplorerEvents
  import opened ExplorerBuffer
  import opened BufferInvariants
  import opened BufferRuns
  import opened BufferLaws

  // ----- every boundary is paid

  /** Each of these kinds leaves a boundary pending with its timer set, whatever came before; and the callback
      then raises every revision once and settles every flag. */
  lemma EveryBoundaryIsPaid(b: Buffer, kind: Kind)
    requires Valid(b)
    requires kind in {RecoveryComplete, PollComplete, PollBoundaryComplete, ProtocolAnomaly, IsolationAnomaly,
                      PollProtocolAnomaly, ProtocolAnomalySuppressed, Stalled, TransportFailure, SinkEffectFailure,
                      RecoveryFailure, PollFailure, CircuitOpen, DetachedAsyncFailure}
    ensures var told := React(b, Telemetry(Control(kind)));
            var r, done := b.revisions, React(told, BoundaryTimeout);
            && told.boundary && told.boundaryTimer != Unset && told.events == [] && told.revisions == r
            && done.revisions == Revisions(r.board + 1, r.inspector + 1, r.runs + 1, r.events + 1)
            && done.ledger.owed == Flags(false, false, false) && !done.boundary
  {
    var input := Telemetry(Control(kind));
    ReactKeepsValid(b, input);
    BoundariesAreExact(b, input);
    EventsAreKeptOrShown(b, input);
    RefreshesAreExact(b, input);
    BoundaryPaysEverything(React(b, input));
  }

  /** The other kinds change nothing. */
  lemma OtherKindsAreIgnored(b: Buffer, kind: Kind)
    requires kind in {ConnectionLive, RecoveryStart, RecoveryConnectionRetry, Unlisted}
    ensures React(b, Telemetry(Control(kind))) == b
  {
  }

  // ----- every applied event is shown, or a full reading replaces it

  /** At input `m` the event leaves the buffer with all pending events, and `BatchFollows` says where to. */
  ghost predicate LeavesAt(inputs: seq<Input>, m: nat, e: Event)
    requires m < |inputs|
  {
    var b, after := After(Initial(), inputs[..m]), After(Initial(), inputs[..m + 1]);
    && Flushes(b, inputs[m]) && e in b.events && b.boardId == Some(e.boardId)
    && after.events == Added(inputs[m]) && BatchFollows(b, inputs[m], after)
    && (inputs[m].BoundaryTimeout? ==> after.revisions.events == b.revisions.events + 1)
  }

  lemma AfterNext(inputs: seq<Input>, m: nat)
    requires m < |inputs|
    ensures After(Initial(), inputs[..m + 1]) == React(After(Initial(), inputs[..m]), inputs[m])
    ensures Possible(Initial(), inputs[..m + 1]) <==>
            Possible(Initial(), inputs[..m]) && Enabled(After(Initial(), inputs[..m]), inputs[m])
  {
    assert inputs[..m + 1][..m] == inputs[..m];
  }

  lemma LeavesNow(inputs: seq<Input>, m: nat, e: Event)
    requires m < |inputs| && Possible(Initial(), inputs[..m + 1])
    requires e in After(Initial(), inputs[..m]).events && Flushes(After(Initial(), inputs[..m]), inputs[m])
    ensures LeavesAt(inputs, m, e)
  {
    var b, input := After(Initial(), inputs[..m]), inputs[m];
    AfterNext(inputs, m);
    RunsKeepInvariants(inputs[..m]);
    EventsAreKeptOrShown(b, input);
    if !input.NewSession? {
      RefreshesAreExact(b, input);
    }
    assert [] + Added(input) == Added(input);
  }

  lemma LeavesBefore(inputs: seq<Input>, m: nat, e: Event)
    requires |inputs| > 0 && m < |inputs| - 1 && LeavesAt(inputs[..|inputs| - 1], m, e)
    ensures LeavesAt(inputs, m, e)
  {
    var init := inputs[..|inputs| - 1];
    assert init[..m] == inputs[..m] && init[..m + 1] == inputs[..m + 1] && init[m] == inputs[m];
  }

  lemma StaysOrLeaves(inputs: seq<Input>, e: Event)
    requires inputs != [] && Possible(Initial(), inputs) && e in After(Initial(), inputs[..|inputs| - 1]).events
    ensures e in After(Initial(), inputs).events || LeavesAt(inputs, |inputs| - 1, e)
  {
    var last := |inputs| - 1;
    assert inputs[..last + 1] == inputs;
    var b := After(Initial(), inputs[..last]);
    if Flushes(b, inputs[last]) {
      LeavesNow(inputs, last, e);
    } else {
      RunsKeepInvariants(inputs[..last]);
      EventsAreKeptOrShown(b, inputs[last]);
    }
  }

  lemma JustApplied(inputs: seq<Input>, e: Event)
    requires inputs != [] && Possible(Initial(), inputs) && Added(inputs[|inputs| - 1]) == [e]
    ensures e in After(Initial(), inputs).events
  {
    var init := inputs[..|inputs| - 1];
    RunsKeepInvariants(init);
    EventsAreKeptOrShown(After(Initial(), init), inputs[|inputs| - 1]);
  }

  /** The event has left the buffer after input `i`. */
  ghost predicate Left(inputs: seq<Input>, i: nat, e: Event) {
    exists m :: i < m < |inputs| && LeavesAt(inputs, m, e)
  }

  /** An event that was applied is pending until it leaves with all that are, for a batch that shows them, a
      refusal with a boundary, a full reading, or a new session. */
  lemma {:induction false} AppliedEventIsShown(inputs: seq<Input>, i: nat, e: Event)
    requires Possible(Initial(), inputs) && i < |inputs| && Added(inputs[i]) == [e]
    ensures e in After(Initial(), inputs).events || Left(inputs, i, e)
    decreases |inputs|
  {
    var init := inputs[..|inputs| - 1];
    if i == |inputs| - 1 {
      JustApplied(inputs, e);
    } else {
      AppliedEventIsShown(init, i, e);
      if Left(init, i, e) {
        var m :| i < m < |init| && LeavesAt(init, m, e);
        LeavesBefore(inputs, m, e);
      } else {
        StaysOrLeaves(inputs, e);
      }
    }
  }

  // ----- nothing stays owed but what was dropped

  /** Telemetry that opens a boundary. */
  predicate IsClosing(input: Input) {
    input.Telemetry? && input.entry.Control? && Closes(input.entry.kind)
  }

  /** Every event of a recovery or a poll was followed by boundary telemetry, or by a new session. */
  ghost predicate Followed(inputs: seq<Input>) {
    forall i :: 0 <= i < |inputs| && Marked(inputs[i]) ==>
      exists j :: i < j < |inputs| && (IsClosing(inputs[j]) || inputs[j].NewSession?)
  }

  /** Some marked event is still waiting. */
  ghost predicate Waits(inputs: seq<Input>) {
    !Followed(inputs)
  }

  lemma WaitsOn(inputs: seq<Input>)
    requires inputs != []
    ensures var init, last := inputs[..|inputs| - 1], inputs[|inputs| - 1];
            Waits(inputs) <==> Marked(last) || (Waits(init) && !IsClosing(last) && !last.NewSession?)
  {
    var n := |inputs| - 1;
    var init, last := inputs[..n], inputs[n];
    if Marked(last) {
      assert Waits(inputs);
    } else if IsClosing(last) || last.NewSession? {
      assert Followed(inputs);
    } else {
      if Followed(init) {
        forall i | 0 <= i < |inputs| && Marked(inputs[i])
          ensures exists j :: i < j < |inputs| && (IsClosing(inputs[j]) || inputs[j].NewSession?)
        {
          assert init[i] == inputs[i];
          var j :| i < j < |init| && (IsClosing(init[j]) || init[j].NewSession?);
          assert inputs[j] == init[j];
        }
      }
      if Followed(inputs) {
        forall i | 0 <= i < |init| && Marked(init[i])
          ensures exists j :: i < j < |init| && (IsClosing(init[j]) || init[j].NewSession?)
        {
          assert init[i] == inputs[i];
          var j :| i < j < |inputs| && (IsClosing(inputs[j]) || inputs[j].NewSession?);
          assert init[j] == inputs[j];
        }
      }
    }
  }

  /** Flags are left to a boundary only while one is pending or a marked event waits for it. */
  ghost predicate DeferredForAReason(b: Buffer, waits: bool) {
    (b.boundarySource ==> waits) && (b.ledger.deferred != NO_FLAGS ==> b.boundary || waits)
  }

  lemma FlushDefers(b: Buffer)
    requires Loose(b)
    ensures Flush(b).ledger.deferred != NO_FLAGS ==> b.ledger.deferred != NO_FLAGS || (b.boundarySource && !b.boundary)
  {
  }

  lemma ReactDefers(b: Buffer, input: Input, waits: bool)
    requires Valid(b) && Enabled(b, input) && DeferredForAReason(b, waits)
    ensures DeferredForAReason(React(b, input), Marked(input) || (waits && !IsClosing(input) && !input.NewSession?))
  {
    ReactKeepsValid(b, input);
    BoundariesAreExact(b, input);
    if !input.NewSession? {
      RefreshesAreExact(b, input);
    }
    match input
    case Telemetry(EventApplied(boardId, event, plan, source)) =>
      if Fits(input.entry) && !plan.fullRefetch {
        FlushDefers(Raise(b, plan, source));
      }
    case EventTimeout => FlushDefers(b.(eventTimer := false));
    case BoundaryTimeout => BoundaryPaysEverything(b);
    case _ =>
  }

  lemma {:induction false} RunsDeferForAReason(inputs: seq<Input>)
    requires Possible(Initial(), inputs)
    ensures DeferredForAReason(After(Initial(), inputs), Waits(inputs))
  {
    if inputs != [] {
      var init := inputs[..|inputs| - 1];
      RunsDeferForAReason(init);
      RunsKeepInvariants(init);
      WaitsOn(inputs);
      ReactDefers(After(Initial(), init), inputs[|inputs| - 1], Waits(init));
    }
  }

  /** Once both timers have fired and every recovery or poll was followed by boundary telemetry, whatever is
      still owed was dropped, and it was dropped by an input that loses something. */
  lemma OwedIsDropped(inputs: seq<Input>)
    requires Possible(Initial(), inputs) && Followed(inputs) && Quiet(After(Initial(), inputs))
    ensures After(Initial(), inputs).ledger.owed == After(Initial(), inputs).ledger.dropped
    ensures NeverLoses(Initial(), inputs) ==> After(Initial(), inputs).ledger.owed == NO_FLAGS
  {
    RunsKeepInvariants(inputs);
    RunsDeferForAReason(inputs);
    NothingIsLostIff(inputs);
  }

  // ----- a burst of live events is one refresh

  /** Live events of one board, none of which asks for everything. */
  predicate LiveBurst(inputs: seq<Input>, boardId: string) {
    forall i :: 0 <= i < |inputs| ==>
      && inputs[i].Telemetry? && Fits(inputs[i].entry) && inputs[i].entry.boardId == boardId
      && !Marked(inputs[i]) && !AsksForAll(inputs[i])
  }

  function BurstEvents(inputs: seq<Input>): seq<Event> {
    if inputs == [] then [] else BurstEvents(inputs[..|inputs| - 1]) + Added(inputs[|inputs| - 1])
  }

  /** The views that any of the events makes stale. */
  ghost function BurstFlags(inputs: seq<Input>): Flags {
    Flags(exists i :: 0 <= i < |inputs| && Stale(inputs[i]).board,
          exists i :: 0 <= i < |inputs| && Stale(inputs[i]).inspector,
          exists i :: 0 <= i < |inputs| && Stale(inputs[i]).runs)
  }

  lemma BurstFlagsNext(inputs: seq<Input>)
    requires inputs != []
    ensures BurstFlags(inputs) == BurstFlags(inputs[..|inputs| - 1]).Or(Stale(inputs[|inputs| - 1]))
  {
    var init, last := inputs[..|inputs| - 1], inputs[|inputs| - 1];
    assert forall i :: 0 <= i < |init| ==> init[i] == inputs[i];
    assert BurstFlags(inputs).board <==> BurstFlags(init).board || Stale(last).board;
    assert BurstFlags(inputs).inspector <==> BurstFlags(init).inspector || Stale(last).inspector;
    assert BurstFlags(inputs).runs <==> BurstFlags(init).runs || Stale(last).runs;
  }

  /** Nothing is pending. */
  predicate Idle(b: Buffer) {
    b.events == [] && !b.boundary
  }

  lemma {:induction false} BurstCollects(b: Buffer, inputs: seq<Input>, boardId: string)
    requires Valid(b) && Idle(b) && LiveBurst(inputs, boardId)
    ensures var c := After(b, inputs);
            && Valid(c) && Possible(b, inputs) && c.events == BurstEvents(inputs) && c.revisions == b.revisions
            && c.invalidation == Invalidation(BurstFlags(inputs), false) && !c.boundarySource && !c.boundary
            && (inputs != [] ==> c.boardId == Some(boardId) && c.eventTimer)
  {
    if inputs != [] {
      var init, input := inputs[..|inputs| - 1], inputs[|inputs| - 1];
      BurstCollects(b, init, boardId);
      assert Fits(input.entry) && input.entry.boardId == boardId;
      BurstGoesOn(After(b, init), input, boardId);
      BurstFlagsNext(inputs);
    }
  }

  lemma BurstGoesOn(c: Buffer, input: Input, boardId: string)
    requires Valid(c) && !c.boundary && (c.events != [] ==> c.boardId == Some(boardId))
    requires LiveBurst([input], boardId)
    ensures var d := React(c, input);
            && Valid(d) && d.events == c.events + Added(input) && d.revisions == c.revisions
            && d.invalidation == Invalidation(c.invalidation.flags.Or(Stale(input)), c.invalidation.fullRefetch)
            && d.boundarySource == c.boundarySource && !d.boundary && d.boardId == Some(boardId) && d.eventTimer
  {
    assert [input][0] == input;
    ReactKeepsValid(c, input);
    BoundariesAreExact(c, input);
    EventsAreKeptOrShown(c, input);
    RefreshesAreExact(c, input);
  }

  /** The revisions after the views in `f` were refreshed. */
  function Raised(r: Revisions, f: Flags): Revisions {
    Revisions(r.board + (if f.board then 1 else 0), r.inspector + (if f.inspector then 1 else 0),
              r.runs + (if f.runs then 1 else 0), r.events)
  }

  lemma BurstEnds(c: Buffer, f: Flags, boardId: string)
    requires Valid(c) && c.eventTimer && c.boardId == Some(boardId) && Accepted(c.events, boardId)
    requires !c.boundary && !c.boundarySource && c.invalidation == Invalidation(f, false)
    ensures var done := React(c, EventTimeout);
            && Shows(done.batch, c.events, boardId) && done.revisions == Raised(c.revisions, f)
            && done.events == [] && !done.boundary
  {
    EventsAreKeptOrShown(c, EventTimeout);
    RefreshesAreExact(c, EventTimeout);
    BoundariesAreExact(c, EventTimeout);
  }

  /** A burst of acceptable live events shows all of them in one batch, and raises once the revision of exactly
      the views that any of them makes stale. */
  lemma LiveBurstIsOneRefresh(b: Buffer, inputs: seq<Input>, boardId: string)
    requires Valid(b) && Idle(b) && inputs != [] && LiveBurst(inputs, boardId) && Accepted(BurstEvents(inputs), boardId)
    ensures var done := React(After(b, inputs), EventTimeout);
            && Shows(done.batch, BurstEvents(inputs), boardId)
               && done.revisions == Raised(b.revisions, BurstFlags(inputs))
            && done.events == [] && !done.boundary
  {
    BurstCollects(b, inputs, boardId);
    BurstEnds(After(b, inputs), BurstFlags(inputs), boardId);
  }
}
