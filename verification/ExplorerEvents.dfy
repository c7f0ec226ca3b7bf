/** The batch of board events: deduplication by two identities, ascending order, and the page limit. */
module ExplorerEvents {
  import opened Wrappers
  import opened Json

  /** A board event.  `body` is the rest of the record: task, run, kind, actor, payload, time. */
  datatype Event = Event(id: int, eventId: string, boardId: string, body: Json)

  datatype Fingerprint = Fingerprint(id: int, eventId: string, boardId: string, body: Json)

  datatype BatchError = IdentityConflict | FingerprintConflict | Anomaly

  const MAX_SAFE_INTEGER := 9_007_199_254_740_991
  const BOARD_EVENTS_PAGE_LIMIT := 150

  /** `eventFingerprint`: the key-sorted record; its JSON text is taken to be as good as the record itself. */
  function EventFingerprint(e: Event): Fingerprint {
    Fingerprint(e.id, e.eventId, e.boardId, Stable(e.body))
  }

  /** Characters that `String.prototype.trim` removes. */
  predicate IsJsSpace(c: char) {
    var n := c as int;
    9 <= n <= 13 || n == 32 || n == 0xA0 || n == 0x1680 || 0x2000 <= n <= 0x200A
    || n == 0x2028 || n == 0x2029 || n == 0x202F || n == 0x205F || n == 0x3000 || n == 0xFEFF
  }

  predicate IsBlank(s: string) {
    forall i :: 0 <= i < |s| ==> IsJsSpace(s[i])
  }

  predicate Admissible(e: Event, boardId: string) {
    0 < e.id <= MAX_SAFE_INTEGER && !IsBlank(e.eventId) && e.boardId == boardId
  }

  /** Two events may stand in one batch: they share both identities and their content, or neither identity. */
  predicate Compatible(e: Event, f: Event) {
    (e.id == f.id <==> e.eventId == f.eventId) && (e.id == f.id ==> EventFingerprint(e) == EventFingerprint(f))
  }

  ghost predicate Consistent(events: seq<Event>) {
    forall e, f :: e in events && f in events ==> Compatible(e, f)
  }

  ghost predicate AllAdmissible(events: seq<Event>, boardId: string) {
    forall e :: e in events ==> Admissible(e, boardId)
  }

  /** The batch is accepted. */
  ghost predicate Accepted(events: seq<Event>, boardId: string) {
    Consistent(events) && AllAdmissible(events, boardId)
  }

  /** The first event of every id. */
  function FirstById(events: seq<Event>): map<int, Event> {
    if events == [] then map[] else
      var init, e := FirstById(events[..|events| - 1]), events[|events| - 1];
      if e.id in init then init else init[e.id := e]
  }

  function LargestKey(m: map<int, Event>): (k: int)
    requires m != map[]
    ensures k in m && forall j :: j in m ==> j <= k
  {
    LargestExists(m);
    var k :| k in m && forall j :: j in m ==> j <= k;
    k
  }

  lemma SomeKey<K, V>(m: map<K, V>) returns (k: K)
    requires m != map[]
    ensures k in m
  {
    k :| k in m;
  }

  lemma {:induction false} FindLargest(m: map<int, Event>) returns (k: int)
    requires m != map[]
    ensures k in m && forall j :: j in m ==> j <= k
    decreases |m|
  {
    k := SomeKey(m);
    var rest := m - {k};
    forall j | j in m ensures j == k || j in rest {
    }
    if rest != map[] {
      var l := FindLargest(rest);
      k := if k < l then l else k;
    }
  }

  lemma LargestExists(m: map<int, Event>)
    requires m != map[]
    ensures exists k :: k in m && forall j :: j in m ==> j <= k
  {
    var k := FindLargest(m);
  }

  /** The values of the map in ascending key order. */
  function Ascending(m: map<int, Event>): (s: seq<Event>)
    ensures |s| == |m|
    decreases |m|
  {
    if m == map[] then [] else
      var k := LargestKey(m);
      assert (m - {k}).Keys == m.Keys - {k};
      Ascending(m - {k}) + [m[k]]
  }

  /** `slice(-n)`. */
  function LastN<T>(s: seq<T>, n: nat): seq<T> {
    if |s| <= n then s else s[|s| - n..]
  }

  /** What the accepted events amount to: the latest page, in ascending order. */
  function Page(events: seq<Event>): seq<Event> {
    LastN(Ascending(FirstById(events)), BOARD_EVENTS_PAGE_LIMIT)
  }

  // ----- the program

  /** The two maps describe the same events and are inverse to each other. */
  ghost predicate Indexes(events: seq<Event>, byId: map<int, Event>, byEventId: map<string, Event>) {
    && byId == FirstById(events)
    && (forall k :: k in byId ==> byId[k].eventId in byEventId && byEventId[byId[k].eventId] == byId[k])
    && (forall t :: t in byEventId ==>
          byEventId[t].eventId == t && byEventId[t].id in byId && byId[byEventId[t].id] == byEventId[t])
  }

  lemma {:induction false} FirstByIdFacts(events: seq<Event>)
    ensures forall k :: k in FirstById(events) ==> FirstById(events)[k] in events && FirstById(events)[k].id == k
    ensures forall e :: e in events ==> e.id in FirstById(events)
  {
    if events != [] {
      var init, e := events[..|events| - 1], events[|events| - 1];
      FirstByIdFacts(init);
      assert events == init + [e];
    }
  }

  /** Meeting the next event, the maps show whether the events so far and this one are consistent. */
  lemma NextEvent(events: seq<Event>, e: Event, byId: map<int, Event>, byEventId: map<string, Event>)
    requires Consistent(events) && Indexes(events, byId, byEventId)
    ensures e.id in byId && e.eventId in byEventId && byId[e.id].eventId == e.eventId ==>
            byId[e.id] == byEventId[e.eventId]
    ensures Consistent(events + [e]) <==>
              && (e.id in byId ==> Compatible(byId[e.id], e))
              && (e.eventId in byEventId ==> Compatible(byEventId[e.eventId], e))
    ensures FirstById(events + [e]) == if e.id in byId then byId else byId[e.id := e]
  {
    FirstByIdFacts(events);
    assert (events + [e])[..|events|] == events;
    assert forall f :: f in events + [e] <==> f in events || f == e;
    forall f | f in events
      ensures Compatible(byId[f.id], f) && byId[f.id].eventId == f.eventId && byEventId[f.eventId] == byId[f.id]
    {
      assert byId[f.id] in events;
    }
  }

  /** The event's identities decide: new, a repetition, or a conflict. */
  datatype Verdict = New | Repeated | Conflict(error: BatchError)

  function Judge(e: Event, byId: map<int, Event>, byEventId: map<string, Event>): Verdict {
    if (e.id in byId && byId[e.id].eventId != e.eventId) || (e.eventId in byEventId && byEventId[e.eventId].id != e.id)
    then Conflict(IdentityConflict)
    else if e.id in byId || e.eventId in byEventId then
      var previous := if e.id in byId then byId[e.id] else byEventId[e.eventId];
      if EventFingerprint(previous) != EventFingerprint(e) then Conflict(FingerprintConflict) else Repeated
    else New
  }

  lemma JudgeDecides(events: seq<Event>, e: Event, byId: map<int, Event>, byEventId: map<string, Event>)
    requires Consistent(events) && Indexes(events, byId, byEventId)
    ensures Consistent(events + [e]) <==> !Judge(e, byId, byEventId).Conflict?
    ensures Judge(e, byId, byEventId).Repeated? ==> Indexes(events + [e], byId, byEventId)
    ensures Judge(e, byId, byEventId).New? ==> Indexes(events + [e], byId[e.id := e], byEventId[e.eventId := e])
  {
    NextEvent(events, e, byId, byEventId);
    FirstByIdFacts(events);
    if e.id in byId && e.eventId in byEventId && byId[e.id].eventId == e.eventId {
      assert byId[e.id] == byEventId[e.eventId];
    } else if e.id in byId {
      assert byId[e.id].eventId in byEventId;
      assert !Compatible(byId[e.id], e);
    } else if e.eventId in byEventId {
      assert byEventId[e.eventId].id in byId;
      assert !Compatible(byEventId[e.eventId], e);
    }
  }

  lemma InconsistentPrefix(events: seq<Event>, n: nat)
    requires n <= |events| && !Consistent(events[..n])
    ensures !Consistent(events)
  {
    var e, f :| e in events[..n] && f in events[..n] && !Compatible(e, f);
    assert e in events && f in events;
  }

  /** The loop of `appendExplorerEventBatch`. */
  method Dedupe(events: seq<Event>) returns (r: Result<map<int, Event>, BatchError>)
    ensures r.Ok? <==> Consistent(events)
    ensures r.Ok? ==> r.value == FirstById(events)
  {
    var byId: map<int, Event>, byEventId: map<string, Event> := map[], map[];
    for i := 0 to |events|
      invariant Consistent(events[..i]) && Indexes(events[..i], byId, byEventId)
    {
      var e := events[i];
      JudgeDecides(events[..i], e, byId, byEventId);
      assert events[..i] + [e] == events[..i + 1];
      var verdict := Judge(e, byId, byEventId);
      if verdict.Conflict? {
        InconsistentPrefix(events, i + 1);
        return Err(verdict.error);
      }
      if verdict.New? {
        byId, byEventId := byId[e.id := e], byEventId[e.eventId := e];
      }
    }
    assert events[..|events|] == events;
    return Ok(byId);
  }

  ghost predicate StrictlyAscending(events: seq<Event>) {
    forall i, j :: 0 <= i < j < |events| ==> events[i].id < events[j].id
  }

  datatype Index = Index(byId: map<int, Event>, byEventId: map<string, Event>)

  /** `add`, the closure in `mergeBoardEvents`; `events` are those added so far. */
  method AddEvent(e: Event, index: Index, boardId: string, ghost events: seq<Event>)
    returns (r: Result<Index, BatchError>)
    requires Accepted(events, boardId) && Indexes(events, index.byId, index.byEventId)
    ensures r.Ok? <==> Accepted(events + [e], boardId)
    ensures r.Ok? ==> Indexes(events + [e], r.value.byId, r.value.byEventId)
  {
    assert forall f :: f in events + [e] <==> f in events || f == e;
    assert e in events + [e];
    if !(0 < e.id <= MAX_SAFE_INTEGER) || IsBlank(e.eventId) || e.boardId != boardId {
      return Err(Anomaly);
    }
    JudgeDecides(events, e, index.byId, index.byEventId);
    match Judge(e, index.byId, index.byEventId)
    case Conflict(_) => return Err(Anomaly);
    case Repeated => return Ok(index);
    case New => return Ok(Index(index.byId[e.id := e], index.byEventId[e.eventId := e]));
  }

  lemma AcceptedPart(events: seq<Event>, more: seq<Event>, boardId: string)
    ensures Accepted(events + more, boardId) ==> Accepted(events, boardId)
  {
    assert forall e :: e in events ==> e in events + more;
  }

  /** The first loop of `mergeBoardEvents`. */
  method AddExisting(existing: seq<Event>, boardId: string) returns (r: Result<Index, BatchError>)
    ensures r.Ok? <==> Accepted(existing, boardId)
    ensures r.Ok? ==> Indexes(existing, r.value.byId, r.value.byEventId)
  {
    var index := Index(map[], map[]);
    for i := 0 to |existing|
      invariant Accepted(existing[..i], boardId) && Indexes(existing[..i], index.byId, index.byEventId)
    {
      var e := existing[i];
      assert existing[..i] + [e] == existing[..i + 1];
      assert existing == existing[..i + 1] + existing[i + 1..];
      AcceptedPart(existing[..i + 1], existing[i + 1..], boardId);
      var added := AddEvent(e, index, boardId, existing[..i]);
      if added.Err? {
        return Err(added.error);
      }
      index := added.value;
    }
    assert existing[..|existing|] == existing;
    return Ok(index);
  }

  lemma NextIncoming(existing: seq<Event>, incoming: seq<Event>, i: nat, boardId: string)
    requires i < |incoming|
    ensures existing + incoming[..i] + [incoming[i]] == existing + incoming[..i + 1]
    ensures Accepted(existing + incoming, boardId) ==>
              Accepted(existing + incoming[..i + 1], boardId) && 0 < incoming[i].id <= MAX_SAFE_INTEGER
  {
    var events := existing + incoming[..i + 1];
    assert events + incoming[i + 1..] == existing + incoming;
    AcceptedPart(events, incoming[i + 1..], boardId);
    assert incoming[i] == events[|existing| + i];
    assert incoming[i] in events;
  }

  lemma NextAscends(incoming: seq<Event>, i: nat)
    requires i < |incoming|
    ensures StrictlyAscending(incoming[..i + 1]) <==>
            StrictlyAscending(incoming[..i]) && (i == 0 || incoming[i - 1].id < incoming[i].id)
    ensures StrictlyAscending(incoming) ==> StrictlyAscending(incoming[..i + 1])
  {
    assert incoming[..i + 1] == incoming[..i] + [incoming[i]];
  }

  /** The second loop of `mergeBoardEvents`. */
  method AddIncoming(incoming: seq<Event>, start: Index, boardId: string, ghost existing: seq<Event>)
    returns (r: Result<Index, BatchError>)
    requires Accepted(existing, boardId) && Indexes(existing, start.byId, start.byEventId)
    ensures r.Ok? <==> StrictlyAscending(incoming) && Accepted(existing + incoming, boardId)
    ensures r.Ok? ==> Indexes(existing + incoming, r.value.byId, r.value.byEventId)
  {
    var index, previousIncomingId := start, -1;
    ghost var events := existing;
    for i := 0 to |incoming|
      invariant events == existing + incoming[..i] && StrictlyAscending(incoming[..i])
      invariant Accepted(events, boardId) && Indexes(events, index.byId, index.byEventId)
      invariant previousIncomingId == if i == 0 then -1 else incoming[i - 1].id
    {
      var e := incoming[i];
      NextIncoming(existing, incoming, i, boardId);
      NextAscends(incoming, i);
      if !(0 < e.id <= MAX_SAFE_INTEGER) || e.id <= previousIncomingId {
        return Err(Anomaly);
      }
      var added := AddEvent(e, index, boardId, events);
      events := events + [e];
      if added.Err? {
        return Err(added.error);
      }
      index, previousIncomingId := added.value, e.id;
    }
    assert incoming[..|incoming|] == incoming;
    return Ok(index);
  }

  /** `mergeBoardEvents`. */
  method MergeBoardEvents(existing: seq<Event>, incoming: seq<Event>, boardId: string)
    returns (r: Result<seq<Event>, BatchError>)
    ensures r.Ok? <==> StrictlyAscending(incoming) && Accepted(existing + incoming, boardId)
    ensures r.Ok? ==> r.value == Page(existing + incoming)
  {
    AcceptedPart(existing, incoming, boardId);
    var merged := AddExisting(existing, boardId);
    if merged.Err? {
      return Err(merged.error);
    }
    merged := AddIncoming(incoming, merged.value, boardId, existing);
    if merged.Err? {
      return Err(merged.error);
    }
    return Ok(LastN(Ascending(merged.value.byId), BOARD_EVENTS_PAGE_LIMIT));
  }

  /** `appendExplorerEventBatch`. */
  method AppendExplorerEventBatch(existing: seq<Event>, incoming: seq<Event>, boardId: string)
    returns (r: Result<seq<Event>, BatchError>)
    ensures r.Ok? <==> Accepted(existing + incoming, boardId)
    ensures r.Ok? ==> r.value == Page(existing + incoming)
  {
    var byId := Dedupe(existing + incoming);
    if byId.Err? {
      return Err(byId.error);
    }
    SortedEvents(existing + incoming, boardId);
    assert [] + Ascending(byId.value) == Ascending(byId.value);
    r := MergeBoardEvents([], Ascending(byId.value), boardId);
  }

  // ----- what the sorted, deduplicated events are

  ghost predicate KeyedById(m: map<int, Event>) {
    forall k :: k in m ==> m[k].id == k
  }

  lemma AscendingStep(m: map<int, Event>) returns (k: int, rest: map<int, Event>)
    requires KeyedById(m) && m != map[]
    ensures k in m && rest == m - {k} && |rest| < |m| && KeyedById(rest) && k !in rest && m == rest[k := m[k]]
    ensures forall j :: j in rest ==> j < k
    ensures Ascending(m) == Ascending(rest) + [m[k]]
  {
    k := LargestKey(m);
    rest := m - {k};
    assert rest.Keys == m.Keys - {k};
  }

  lemma {:induction false} AscendingElements(m: map<int, Event>)
    requires KeyedById(m)
    ensures StrictlyAscending(Ascending(m))
    ensures forall e :: e in Ascending(m) ==> e.id in m && m[e.id] == e
    ensures forall k :: k in m ==> m[k] in Ascending(m)
    decreases |m|
  {
    if m != map[] {
      var k, rest := AscendingStep(m);
      AscendingElements(rest);
      SnocElements(Ascending(rest), m[k], Ascending(m));
      forall j | j in m ensures m[j] in Ascending(m) {
        assert j == k || rest[j] in Ascending(rest);
      }
    }
  }

  lemma SnocElements(init: seq<Event>, e: Event, s: seq<Event>)
    requires s == init + [e]
    ensures forall f :: f in s <==> f in init || f == e
    ensures StrictlyAscending(init) && (forall f :: f in init ==> f.id < e.id) ==> StrictlyAscending(s)
  {
    assert forall i :: 0 <= i < |init| ==> init[i] in init;
  }

  lemma {:induction false} AscendingIndexes(m: map<int, Event>)
    requires KeyedById(m)
    ensures FirstById(Ascending(m)) == m
    decreases |m|
  {
    if m != map[] {
      var k, rest := AscendingStep(m);
      AscendingIndexes(rest);
      assert Ascending(m)[..|Ascending(rest)|] == Ascending(rest);
    }
  }

  lemma SortedEvents(events: seq<Event>, boardId: string)
    requires Consistent(events)
    ensures var s := Ascending(FirstById(events));
            && StrictlyAscending(s) && Page(s) == Page(events)
            && (Accepted(s, boardId) <==> Accepted(events, boardId))
  {
    FirstByIdFacts(events);
    var m := FirstById(events);
    AscendingElements(m);
    AscendingIndexes(m);
    var s := Ascending(m);
    forall e | e in s ensures e in events {
      assert m[e.id] in events;
    }
    if AllAdmissible(s, boardId) {
      forall e | e in events ensures Admissible(e, boardId) {
        assert m[e.id] in s && m[e.id] in events;
        assert Compatible(m[e.id], e);
      }
    }
  }
}
