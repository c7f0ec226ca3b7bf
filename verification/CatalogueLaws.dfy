/** What declarations become, and what an accepted catalogue guarantees, told field by field. */
module CatalogueLaws {
  import opened Wrappers
  import opened Text
  import opened Catalogue
  import opened Topology
  import opened SurfaceAudit

  // ----- obligations: the first override of a kind, else the first exact child at its place

  lemma {:induction false} OverrideIsFirst(overrides: seq<(Kind, Obligation)>, kind: Kind)
    ensures var found := FindOverride(overrides, kind);
            if found.None? then forall i :: 0 <= i < |overrides| ==> overrides[i].0 != kind
            else exists i :: 0 <= i < |overrides| && overrides[i] == (kind, found.value) &&
                             forall j :: 0 <= j < i ==> overrides[j].0 != kind
    decreases |overrides|
  {
    if overrides != [] && overrides[0].0 != kind {
      var rest := overrides[1..];
      OverrideIsFirst(rest, kind);
      var found := FindOverride(rest, kind);
      if found.Some? {
        var i :| 0 <= i < |rest| && rest[i] == (kind, found.value) && forall j :: 0 <= j < i ==> rest[j].0 != kind;
        assert overrides[i + 1] == rest[i];
        assert forall j :: 0 < j < i + 1 ==> overrides[j] == rest[j - 1];
      }
    }
  }

  /** A child that binds exactly at this place. */
  predicate BindsAt(c: ContractDecl, location: Location) {
    c.binding == ExactSurface && c.location == Some(location)
  }

  lemma {:induction false} ExactIsFirst(cs: seq<ContractDecl>, location: Location)
    ensures var found := FindExact(cs, location);
            if found.None? then forall i :: 0 <= i < |cs| ==> !BindsAt(cs[i], location)
            else exists i :: 0 <= i < |cs| && cs[i] == found.value && BindsAt(cs[i], location) &&
                             forall j :: 0 <= j < i ==> !BindsAt(cs[j], location)
    decreases |cs|
  {
    if cs != [] && !BindsAt(cs[0], location) {
      var rest := cs[1..];
      ExactIsFirst(rest, location);
      var found := FindExact(rest, location);
      if found.Some? {
        var i :| 0 <= i < |rest| && rest[i] == found.value && BindsAt(rest[i], location) &&
                 forall j :: 0 <= j < i ==> !BindsAt(rest[j], location);
        assert cs[i + 1] == rest[i];
        assert forall j :: 0 < j < i + 1 ==> cs[j] == rest[j - 1];
      }
    }
  }

  /** Where each obligation of an endpoint is looked for. */
  lemma EndpointObligations(op: OperationDecl)
    requires OverHttp(op.surface) && Projectable(op)
    ensures var o := EndpointOf(op).obligations;
            && Comes(op, o.path, PathKind, PathLocation) && Comes(op, o.query, QueryKind, QueryLocation)
            && Comes(op, o.headers, HeadersKind, HeadersLocation) && Comes(op, o.body, BodyKind, BodyLocation)
            && Comes(op, o.success, SuccessKind, SuccessLocation) && Comes(op, o.sse, SseKind, SseLocation)
  {
  }

  /** The obligation is the override of its kind, or names the exact child at its place, or is not applicable. */
  predicate Comes(op: OperationDecl, obligation: Obligation, kind: Kind, location: Location) {
    var forced, child := FindOverride(op.overrides, kind), FindExact(op.contracts, location);
    && (forced.Some? ==> obligation == forced.value)
    && (forced.None? && child.Some? ==> obligation == ContractOf(child.value.id))
    && (forced.None? && child.None? ==> obligation == NotApplicable)
  }

  // ----- children

  /** A child's contract: its own values, its parent's surface, and the parent's operation and exclusion where it
      has none. */
  lemma ChildContract(op: OperationDecl, c: ContractDecl)
    ensures var x := ContractIn(op, c);
            && x.id == c.id && x.path == c.path && x.surface == op.surface && x.direction == c.direction
            && x.granularity == c.granularity && x.strictness == c.strictness && x.binding == c.binding
            && x.schemaId == c.schemaId && x.fixture == c.validFixture
            && (c.operation.Some? ==> x.operation == c.operation.value)
            && (c.operation.None? ==> x.operation == op.operation)
            && (c.exclusion.Some? ==> x.exclusion == c.exclusion)
            && (c.exclusion.None? ==> x.exclusion == op.exclusion)
  {
  }

  /** A located child of a parent with method and path travels over HTTP; an exact one claims its own key, else its
      operation, else its parent's; a shared one claims none. */
  lemma ChildTransport(op: OperationDecl, c: ContractDecl)
    ensures var x := ContractIn(op, c);
            && (x.transport.Http? <==> op.verb.Some? && op.path.Some? && c.location.Some?)
            && (x.transport.Http? ==>
                  && c.location == Some(x.transport.location) && x.transport.parameters == c.parameters
                  && (c.binding == SharedComponent ==> x.transport.operationKey == None)
                  && (c.binding == ExactSurface && c.operationKey.Some? ==> x.transport.operationKey == c.operationKey)
                  && (c.binding == ExactSurface && c.operationKey.None? && c.operation.Some? ==>
                        x.transport.operationKey == c.operation)
                  && (c.binding == ExactSurface && c.operationKey.None? && c.operation.None? ==>
                        x.transport.operationKey == Some(op.operation)))
  {
  }

  // ----- what an accepted inventory says

  /** An accepted contract over HTTP comes in at a path, a query, headers or a body, and goes out as a success, an
      error or an event; it is over HTTP exactly on the API and event surfaces. */
  lemma AcceptedTransport(c: Contract)
    requires TransportOk(c)
    ensures c.surface == Api || c.surface == Sse <==> c.transport.Http?
    ensures c.transport.Http? ==>
              var location := c.transport.location;
              && (c.direction == Deserialize <==>
                location in {PathLocation, QueryLocation, HeadersLocation, BodyLocation})
              && (c.direction == Serialize <==> location in {SuccessLocation, ErrorLocation, SseLocation})
              && (location == SseLocation ==> c.surface == Sse)
              && (location == ErrorLocation ==> c.binding == SharedComponent)
              && (c.binding == ExactSurface <==> c.transport.operationKey.Some?)
              && (c.transport.parameters != [] ==> location in {PathLocation, QueryLocation, HeadersLocation})
    ensures c.binding == ExactSurface ==> c.granularity == Exact
  {
  }

  lemma {:induction false} LowerCaseAt(s: string, i: nat)
    requires i < |s|
    ensures |LowerCase(s)| == |s| && LowerCase(s)[i] == Lower(s[i])
    decreases |s|
  {
    if |s| > 1 {
      LowerCaseAt(s[1..], if i > 0 then i - 1 else 0);
    }
  }

  /** The same letter, in the same or the other case. */
  predicate SameLetter(c: char, d: char) {
    c == d || ('A' <= c <= 'Z' && d as int == c as int + 32) || ('A' <= d <= 'Z' && c as int == d as int + 32)
  }

  /** Two header names are one name exactly when they differ in the case of ASCII letters only; other names are one
      only when they are equal. */
  lemma OneNameIff(a: string, b: string, location: Location)
    ensures Identity(a, location) == Identity(b, location) <==>
            if location == HeadersLocation then |a| == |b| && forall i :: 0 <= i < |a| ==>
              SameLetter(a[i], b[i]) else a == b
  {
    if location == HeadersLocation {
      forall i | 0 <= i < |a| ensures |LowerCase(a)| == |a| && LowerCase(a)[i] == Lower(a[i]) {
        LowerCaseAt(a, i);
      }
      forall i | 0 <= i < |b| ensures |LowerCase(b)| == |b| && LowerCase(b)[i] == Lower(b[i]) {
        LowerCaseAt(b, i);
      }
      if LowerCase(a) == LowerCase(b) && |a| == |b| {
        forall i | 0 <= i < |a| ensures SameLetter(a[i], b[i]) {
          assert Lower(a[i]) == Lower(b[i]);
        }
      }
      if |a| == |b| && forall i :: 0 <= i < |a| ==> SameLetter(a[i], b[i]) {
        forall i | 0 <= i < |a| ensures Lower(a[i]) == Lower(b[i]) {
        }
        assert |LowerCase(a)| == |LowerCase(b)|;
      }
    }
  }

  // ----- placeholders

  /** A segment of a route: fixed text, or the place of a parameter. */
  datatype Segment = Fixed(text: string) | Parameter(name: string)

  function SegmentText(segment: Segment): string {
    match segment
    case Fixed(text) => text
    case Parameter(name) => ":" + name
  }

  function Texts(segments: seq<Segment>): (texts: seq<string>)
    ensures |texts| == |segments| && forall i :: 0 <= i < |segments| ==> texts[i] == SegmentText(segments[i])
  {
    seq(|segments|, i requires 0 <= i < |segments| => SegmentText(segments[i]))
  }

  function ParameterNames(segments: seq<Segment>): seq<string> {
    if segments == [] then []
    else (if segments[0].Parameter? then [segments[0].name] else []) + ParameterNames(segments[1..])
  }

  /** A segment that is what it says: no slash, and no fixed text that looks like a parameter. */
  predicate Plain(segment: Segment) {
    && '/' !in SegmentText(segment)
    && (segment.Fixed? && segment.text != [] ==> segment.text[0] != ':')
  }

  lemma {:induction false} PlaceholdersOfTexts(segments: seq<Segment>)
    requires forall i :: 0 <= i < |segments| ==> Plain(segments[i])
    ensures Placeholders(Texts(segments)) == ParameterNames(segments)
    decreases |segments|
  {
    if segments != [] {
      PlaceholdersOfTexts(segments[1..]);
      assert Texts(segments)[1..] == Texts(segments[1..]);
      assert segments[0].Parameter? ==> (":" + segments[0].name)[1..] == segments[0].name;
    }
  }

  /** The placeholders that the validator reads from a route are its parameters, in order. */
  lemma PlaceholdersOfRoute(segments: seq<Segment>)
    requires segments != [] && forall i :: 0 <= i < |segments| ==> Plain(segments[i])
    ensures Placeholders(Split(Join(Texts(segments), '/'), '/')) == ParameterNames(segments)
  {
    SplitJoin(Texts(segments), '/');
    PlaceholdersOfTexts(segments);
  }

  // ----- what an accepted endpoint says

  /** The contract that an obligation names is at this place, goes this way and claims this key. */
  ghost predicate Stands(e: Endpoint, obligation: Obligation, location: Location, direction: Direction,
                         inventory: seq<Contract>)
  {
    obligation.ContractOf? ==>
      exists c :: && c in inventory && c.id == obligation.id && c.binding == ExactSurface && c.surface == e.surface
                  && c.direction == direction && c.transport.Http? && c.transport.location == location
                  && c.transport.operationKey == Some(Verb(e.verb) + " " + e.path)
  }

  function Verb(verb: HttpMethod): string {
    if verb == Get then "GET" else if verb == Post then "POST" else if verb == Put then "PUT"
    else if verb == Patch then "PATCH" else "DELETE"
  }

  /** Every obligation of an accepted endpoint names a contract of its own place, direction and key, or is left
      open where that is allowed: a route with a parameter needs a path contract, an event endpoint an event
      contract, and no other endpoint has one. */
  lemma AcceptedObligations(e: Endpoint, inventory: seq<Contract>)
    requires EndpointOk(e, inventory)
    ensures e.surface == Api || e.surface == Sse
    ensures var o := e.obligations;
            && Stands(e, o.path, PathLocation, Deserialize, inventory)
            && Stands(e, o.query, QueryLocation, Deserialize, inventory)
            && Stands(e, o.headers, HeadersLocation, Deserialize, inventory)
            && Stands(e, o.body, BodyLocation, Deserialize, inventory)
            && Stands(e, o.success, SuccessLocation, Serialize, inventory)
            && Stands(e, o.sse, SseLocation, Serialize, inventory)
            && (':' in e.path ==> o.path != NotApplicable)
            && (e.surface == Sse ==> o.sse != NotApplicable)
            && (e.surface == Api ==> o.sse == NotApplicable || o.sse.Excluded?)
  {
    StandsFor(e, PathKind, PathLocation, Deserialize, inventory);
    StandsFor(e, QueryKind, QueryLocation, Deserialize, inventory);
    StandsFor(e, HeadersKind, HeadersLocation, Deserialize, inventory);
    StandsFor(e, BodyKind, BodyLocation, Deserialize, inventory);
    StandsFor(e, SuccessKind, SuccessLocation, Serialize, inventory);
    StandsFor(e, SseKind, SseLocation, Serialize, inventory);
    assert ObligationOk(e, PathKind, inventory) && ObligationOk(e, SseKind, inventory);
  }

  lemma StandsFor(e: Endpoint, kind: Kind, location: Location, direction: Direction, inventory: seq<Contract>)
    requires EndpointOk(e, inventory) && kind.Location() == location
    requires direction == if kind in {SuccessKind, SseKind} then Serialize else Deserialize
    ensures Stands(e, e.obligations.Of(kind), location, direction, inventory)
  {
    assert ObligationOk(e, kind, inventory);
  }

  // ----- keys and owners

  /** Three dots stand in a row somewhere. */
  lemma {:induction false} DotsIff(s: string)
    ensures HasDots(s) <==> exists i :: 0 <= i && i + 2 < |s| && s[i] == '.' && s[i + 1] == '.' && s[i + 2] == '.'
    decreases |s|
  {
    if |s| >= 3 {
      var rest := s[1..];
      DotsIff(rest);
      if i :| 0 <= i && i + 2 < |s| && s[i] == '.' && s[i + 1] == '.' && s[i + 2] == '.' {
        if i > 0 {
          assert rest[i - 1] == '.' && rest[i - 1 + 1] == '.' && rest[i - 1 + 2] == '.';
        }
      }
      if i :| 0 <= i && i + 2 < |rest| && rest[i] == '.' && rest[i + 1] == '.' && rest[i + 2] == '.' {
        assert s[i + 1] == '.' && s[i + 1 + 1] == '.' && s[i + 1 + 2] == '.';
      }
    }
  }

  /** What an audited exact contract's owner is called: the contract's key over HTTP, its operation elsewhere. */
  lemma OwnerIsNamed(entries: seq<SurfaceOperation>, operations: Operations, id: string)
    requires SurfacesOk(entries, operations) && IsExact(id, operations)
    ensures exists i :: 0 <= i < |entries| && entries[i].exclusion.None? && id in entries[i].contracts &&
              (operations[id].transport.Http? ==> operations[id].transport.operationKey == Some(entries[i].key)) &&
              (operations[id].transport.NoTransport? ==> operations[id].operation == entries[i].key)
  {
    assert OwnedOnce(id, entries, operations);
  }

  /** What an audited entry says. */
  lemma EntryIs(c: Contract)
    ensures EntryOk(c) <==>
            && (exists i :: 0 <= i < |c.id| && !IsSpace(c.id[i]))
            && (exists i :: 0 <= i < |c.path| && !IsSpace(c.path[i]))
            && (exists i :: 0 <= i < |c.operation| && !IsSpace(c.operation[i]))
            && (c.granularity == Exact ==> '*' !in c.path && !HasDots(c.path))
            && (c.schemaId.Some? <==> c.fixture.Some?)
            && (c.exclusion.Some? ==> c.schemaId.None? && c.fixture.None?)
            && (c.exclusion.Some? ==> exists i :: 0 <= i < |c.exclusion.value| && !IsSpace(c.exclusion.value[i]))
  {
  }
}
