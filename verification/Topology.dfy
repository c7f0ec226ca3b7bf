/** The validators of the contract catalogue, and what they accept. */
module Topology {
  import opened Wrappers
  import opened Text
  import opened Catalogue
  import opened Permutations

  datatype Rejection =
    | DuplicateContract | BadTransport | EmptyEndpoint | BadSurface | DuplicateOperation | DuplicateMethodPath
    | BlankReason | BadObligation | BadSharedLink

  // ----- what a contract may declare

  function Lower(c: char): char {
    if 'A' <= c <= 'Z' then c - 'A' + 'a' else c
  }

  function LowerCase(s: string): string {
    if s == [] then [] else [Lower(s[0])] + LowerCase(s[1..])
  }

  /** Header names are compared without case. */
  function Identity(name: string, location: Location): string {
    if location == HeadersLocation then LowerCase(name) else name
  }

  predicate IsTrimmed(name: string) {
    name != [] && !IsSpace(name[0]) && !IsSpace(name[|name| - 1])
  }

  predicate TakesParameters(location: Location) {
    location == PathLocation || location == QueryLocation || location == HeadersLocation
  }

  function ExpectedDirection(location: Location): Direction {
    if TakesParameters(location) || location == BodyLocation then Deserialize else Serialize
  }

  predicate ParameterOk(p: Parameter, location: Location) {
    IsTrimmed(p.name) && p.cardinality.Some? && (location == PathLocation ==> p.cardinality == Some(RequiredOne))
  }

  predicate ParametersOk(ps: seq<Parameter>, location: Location) {
    && (forall i :: 0 <= i < |ps| ==> ParameterOk(ps[i], location))
    && (forall i, j :: 0 <= i < j < |ps| ==> Identity(ps[i].name, location) != Identity(ps[j].name, location))
  }

  /** The transport of a contract fits its surface, binding and direction. */
  predicate TransportOk(c: Contract) {
    && (c.binding == ExactSurface ==> c.granularity == Exact)
    && (c.transport.Http? <==> OverHttp(c.surface))
    && (c.transport.Http? ==>
          var location := c.transport.location;
          && !(c.surface == Api && location == SseLocation)
          && (location == ErrorLocation ==> c.binding == SharedComponent)
          && (c.binding == ExactSurface ==> c.transport.operationKey.Some? && !IsBlank(c.transport.operationKey.value))
          && (c.binding == SharedComponent ==> c.transport.operationKey.None?)
          && c.direction == ExpectedDirection(location)
          && (c.transport.parameters != [] ==> TakesParameters(location))
          && ParametersOk(c.transport.parameters, location))
  }

  ghost predicate DistinctIds(inventory: seq<Contract>) {
    forall i, j :: 0 <= i < j < |inventory| ==> inventory[i].id != inventory[j].id
  }

  ghost predicate InventoryOk(inventory: seq<Contract>) {
    DistinctIds(inventory) && forall i :: 0 <= i < |inventory| ==> TransportOk(inventory[i])
  }

  // ----- what an endpoint may refer to

  /** The placeholders of a path: its segments that start with a colon, without it. */
  function Placeholders(segments: seq<string>): seq<string> {
    if segments == [] then []
    else (if segments[0] != [] && segments[0][0] == ':' then [segments[0][1..]] else []) + Placeholders(segments[1..])
  }

  function Names(ps: seq<Parameter>): seq<string> {
    seq(|ps|, i requires 0 <= i < |ps| => ps[i].name)
  }

  /** A contract fulfils an obligation of an endpoint with this surface, method and path. */
  predicate Fulfils(c: Contract, kind: Kind, surface: Surface, verb: HttpMethod, path: string) {
    && c.binding == ExactSurface && c.granularity == Exact
    && c.direction == (if kind.IsInput() then Deserialize else Serialize)
    && c.surface == surface
    && c.transport.Http? && c.transport.location == kind.Location()
    && c.transport.operationKey == Some(OperationKey(verb, path))
    && (kind == PathKind ==> Names(c.transport.parameters) == Placeholders(Split(path, '/')))
    && (kind == SseKind ==> surface == Sse)
  }

  /** A colon in the path calls for a path contract, an SSE endpoint for an SSE contract, and no other endpoint
      may leave its SSE obligation open. */
  predicate MayLeave(kind: Kind, obligation: Obligation, surface: Surface, path: string) {
    match obligation
    case NotApplicable => !(kind == PathKind && ':' in path) && !(kind == SseKind && surface == Sse)
    case Excluded(reason) => !IsBlank(reason)
    case Todo => !(kind == SseKind && surface != Sse)
    case ContractOf(_) => false
  }

  ghost predicate ObligationOk(e: Endpoint, kind: Kind, inventory: seq<Contract>) {
    var obligation := e.obligations.Of(kind);
    if obligation.ContractOf? then
      exists c :: c in inventory && c.id == obligation.id && Fulfils(c, kind, e.surface, e.verb, e.path)
    else MayLeave(kind, obligation, e.surface, e.path)
  }

  ghost predicate Obliged(e: Endpoint, id: string) {
    exists kind: Kind :: e.obligations.Of(kind) == ContractOf(id)
  }

  predicate Linkable(c: Contract, surface: Surface) {
    c.binding == SharedComponent && c.surface == surface && c.transport.Http?
  }

  ghost predicate LinkKnown(link: string, surface: Surface, inventory: seq<Contract>) {
    exists c :: c in inventory && c.id == link && Linkable(c, surface)
  }

  ghost predicate SharedLinksOk(links: seq<string>, surface: Surface, inventory: seq<Contract>) {
    && Distinct(links)
    && (forall i :: 0 <= i < |links| ==> LinkKnown(links[i], surface, inventory))
  }

  predicate ReasonOk(exclusion: Option<string>) {
    exclusion.Some? ==> !IsBlank(exclusion.value)
  }

  ghost predicate EndpointOk(e: Endpoint, inventory: seq<Contract>) {
    && e.operationId != [] && e.path != [] && OverHttp(e.surface) && ReasonOk(e.exclusion)
    && (forall kind: Kind :: ObligationOk(e, kind, inventory))
    && SharedLinksOk(e.sharedComponents, e.surface, inventory)
  }

  ghost predicate DistinctEndpoints(catalog: seq<Endpoint>) {
    && (forall i, j :: 0 <= i < j < |catalog| ==> catalog[i].operationId != catalog[j].operationId)
    && (forall i, j :: 0 <= i < j < |catalog| ==>
          (catalog[i].verb, catalog[i].path) != (catalog[j].verb, catalog[j].path))
  }

  /** What `validate_contract_topology` accepts. */
  ghost predicate TopologyOk(catalog: seq<Endpoint>, inventory: seq<Contract>) {
    && InventoryOk(inventory)
    && DistinctEndpoints(catalog)
    && (forall i :: 0 <= i < |catalog| ==> EndpointOk(catalog[i], inventory))
  }

  // ----- the program

  function TrimStart(s: string): (t: string)
    ensures |t| <= |s|
  {
    if s != [] && IsSpace(s[0]) then TrimStart(s[1..]) else s
  }

  function TrimEnd(s: string): (t: string)
    ensures |t| <= |s|
  {
    if s != [] && IsSpace(s[|s| - 1]) then TrimEnd(s[..|s| - 1]) else s
  }

  /** `str::trim`. */
  function Trim(s: string): string {
    TrimEnd(TrimStart(s))
  }

  lemma {:induction false} TrimStartBlank(s: string)
    ensures if IsBlank(s) then TrimStart(s) == [] else TrimStart(s) != [] && !IsSpace(TrimStart(s)[0])
    decreases |s|
  {
    if s != [] && IsSpace(s[0]) {
      TrimStartBlank(s[1..]);
      assert IsBlank(s) <==> IsBlank(s[1..]) by {
        assert s == [s[0]] + s[1..];
      }
    }
  }

  lemma {:induction false} TrimEndKeeps(s: string)
    requires s != [] && !IsSpace(s[0])
    ensures TrimEnd(s) != []
    decreases |s|
  {
    if IsSpace(s[|s| - 1]) {
      TrimEndKeeps(s[..|s| - 1]);
    }
  }

  /** Trimming leaves nothing of blank text only, and changes exactly text that starts or ends with white space. */
  lemma TrimIs(s: string)
    ensures Trim(s) == [] <==> IsBlank(s)
    ensures s != [] ==> (Trim(s) == s <==> IsTrimmed(s))
  {
    TrimStartBlank(s);
    if !IsBlank(s) {
      TrimEndKeeps(TrimStart(s));
    }
  }

  ghost predicate Named(ps: seq<Parameter>, location: Location, identity: string) {
    exists j :: 0 <= j < |ps| && Identity(ps[j].name, location) == identity
  }

  lemma NamedSnoc(ps: seq<Parameter>, p: Parameter, location: Location, identity: string)
    ensures Named(ps + [p], location, identity) <==>
            Named(ps, location, identity) || Identity(p.name, location) == identity
  {
    var all := ps + [p];
    assert all[|ps|] == p && forall j :: 0 <= j < |ps| ==> all[j] == ps[j];
  }

  lemma ParametersSnoc(ps: seq<Parameter>, p: Parameter, location: Location)
    ensures ParametersOk(ps + [p], location) <==>
            ParametersOk(ps, location) && ParameterOk(p, location) && !Named(ps, location, Identity(p.name, location))
  {
    var all := ps + [p];
    assert all[|ps|] == p && forall j :: 0 <= j < |ps| ==> all[j] == ps[j];
  }

  lemma ParametersPrefix(ps: seq<Parameter>, i: nat, location: Location)
    requires i <= |ps| && ParametersOk(ps, location)
    ensures ParametersOk(ps[..i], location)
  {
  }

  /** The parameter loop of `validate_contract_transport`. */
  method ValidateParameters(ps: seq<Parameter>, location: Location) returns (ok: bool)
    ensures ok <==> ParametersOk(ps, location)
  {
    var names: set<string> := {};
    for i := 0 to |ps|
      invariant ParametersOk(ps[..i], location)
      invariant forall n :: n in names <==> Named(ps[..i], location, n)
    {
      var p := ps[i];
      assert ps[..i + 1] == ps[..i] + [p];
      ParametersSnoc(ps[..i], p, location);
      forall n
        ensures Named(ps[..i + 1], location, n) <==> Named(ps[..i], location, n) || Identity(p.name, location) == n
      {
        NamedSnoc(ps[..i], p, location, n);
      }
      if ParametersOk(ps, location) {
        ParametersPrefix(ps, i + 1, location);
      }
      var name := Trim(p.name);
      TrimIs(p.name);
      if |name| == 0 {
        return false;
      }
      if name != p.name {
        return false;
      }
      var identity := Identity(p.name, location);
      if identity in names {
        return false;
      }
      names := names + {identity};
      if p.cardinality.None? {
        return false;
      }
      if location == PathLocation && p.cardinality.value != RequiredOne {
        return false;
      }
    }
    assert ps[..|ps|] == ps;
    return true;
  }

  /** `validate_contract_transport`. */
  method ValidateContractTransport(c: Contract) returns (ok: bool)
    ensures ok <==> TransportOk(c)
  {
    if c.binding == ExactSurface && c.granularity != Exact {
      return false;
    }
    match c.transport
    case NoTransport =>
      return !OverHttp(c.surface);
    case Http(operationKey, location, parameters) =>
      if !OverHttp(c.surface) {
        return false;
      }
      if c.surface == Api && location == SseLocation {
        return false;
      }
      if location == ErrorLocation && c.binding != SharedComponent {
        return false;
      }
      if c.binding == ExactSurface && (operationKey.None? || IsBlank(operationKey.value)) {
        return false;
      }
      if c.binding == SharedComponent && operationKey.Some? {
        return false;
      }
      if c.direction != ExpectedDirection(location) {
        return false;
      }
      if !TakesParameters(location) && |parameters| != 0 {
        return false;
      }
      ok := ValidateParameters(parameters, location);
  }

  /** The contracts by id. */
  ghost predicate IndexesContracts(inventory: seq<Contract>, contracts: map<string, Contract>) {
    && (forall c :: c in inventory ==> c.id in contracts && contracts[c.id] == c)
    && (forall id :: id in contracts ==> contracts[id] in inventory && contracts[id].id == id)
  }

  /** `validate_contract_inventory_transport`, which also yields the contracts by id. */
  method ValidateInventory(inventory: seq<Contract>) returns (r: Result<map<string, Contract>, Rejection>)
    ensures r.Ok? <==> InventoryOk(inventory)
    ensures r.Ok? ==> IndexesContracts(inventory, r.value)
  {
    var contracts: map<string, Contract> := map[];
    for i := 0 to |inventory|
      invariant InventoryOk(inventory[..i]) && IndexesContracts(inventory[..i], contracts)
    {
      var c := inventory[i];
      if c.id in contracts {
        assert contracts[c.id] in inventory[..i];
        return Err(DuplicateContract);
      }
      var ok := ValidateContractTransport(c);
      if !ok {
        return Err(BadTransport);
      }
      assert inventory[..i + 1] == inventory[..i] + [c];
      contracts := contracts[c.id := c];
    }
    assert inventory[..|inventory|] == inventory;
    return Ok(contracts);
  }

  /** `validate_obligation`. */
  method ValidateObligation(e: Endpoint, kind: Kind, contracts: map<string, Contract>, ghost inventory: seq<Contract>)
    returns (ok: bool)
    requires IndexesContracts(inventory, contracts) && OverHttp(e.surface)
    ensures ok <==> ObligationOk(e, kind, inventory)
  {
    var obligation := e.obligations.Of(kind);
    if kind == PathKind && ':' in e.path && obligation.NotApplicable? {
      return false;
    }
    match obligation {
      case Todo =>
      case Excluded(reason) =>
        if IsBlank(reason) {
          return false;
        }
      case ContractOf(id) =>
        if id !in contracts {
          return false;
        }
        if !Fulfils(contracts[id], kind, e.surface, e.verb, e.path) {
          return false;
        }
        assert contracts[id] in inventory;
      case NotApplicable =>
    }
    if kind == SseKind && e.surface != Sse && !obligation.NotApplicable? && !obligation.Excluded? {
      return false;
    }
    if kind == SseKind && e.surface == Sse && obligation.NotApplicable? {
      return false;
    }
    return true;
  }

  /** `validate_shared_component_links`. */
  method ValidateSharedLinks(e: Endpoint, contracts: map<string, Contract>, ghost inventory: seq<Contract>)
    returns (ok: bool)
    requires IndexesContracts(inventory, contracts)
    ensures ok <==> SharedLinksOk(e.sharedComponents, e.surface, inventory)
  {
    var links, linked: set<string> := e.sharedComponents, {};
    for i := 0 to |links|
      invariant SharedLinksOk(links[..i], e.surface, inventory)
      invariant forall id :: id in linked <==> id in links[..i]
    {
      if links[i] in linked {
        return false;
      }
      if links[i] !in contracts || !Linkable(contracts[links[i]], e.surface) {
        return false;
      }
      assert contracts[links[i]] in inventory;
      linked := linked + {links[i]};
    }
    assert links[..|links|] == links;
    return true;
  }

  /** The obligations of an endpoint, kind by kind. */
  method ValidateObligations(e: Endpoint, contracts: map<string, Contract>, ghost inventory: seq<Contract>)
    returns (ok: bool)
    requires IndexesContracts(inventory, contracts) && OverHttp(e.surface)
    ensures ok <==> forall kind: Kind :: ObligationOk(e, kind, inventory)
  {
    for i := 0 to |KINDS|
      invariant forall j :: 0 <= j < i ==> ObligationOk(e, KINDS[j], inventory)
    {
      var kindOk := ValidateObligation(e, KINDS[i], contracts, inventory);
      if !kindOk {
        return false;
      }
    }
    forall kind: Kind ensures ObligationOk(e, kind, inventory) {
      AllKinds(kind);
    }
    return true;
  }

  /** `validate_contract_topology`. */
  method ValidateContractTopology(catalog: seq<Endpoint>, inventory: seq<Contract>) returns (r: Result<(), Rejection>)
    ensures r.Ok? <==> TopologyOk(catalog, inventory)
  {
    var indexed := ValidateInventory(inventory);
    if indexed.Err? {
      return Err(indexed.error);
    }
    var contracts := indexed.value;
    var operationIds: set<string>, methodPaths: set<(HttpMethod, string)> := {}, {};
    for i := 0 to |catalog|
      invariant DistinctEndpoints(catalog[..i])
      invariant forall j :: 0 <= j < i ==> EndpointOk(catalog[j], inventory)
      invariant forall id :: id in operationIds <==> exists j :: 0 <= j < i && catalog[j].operationId == id
      invariant forall mp :: mp in methodPaths <==> exists j :: 0 <= j < i && (catalog[j].verb, catalog[j].path) == mp
    {
      var e := catalog[i];
      if |e.operationId| == 0 || |e.path| == 0 {
        return Err(EmptyEndpoint);
      }
      if !OverHttp(e.surface) {
        return Err(BadSurface);
      }
      if e.operationId in operationIds {
        return Err(DuplicateOperation);
      }
      operationIds := operationIds + {e.operationId};
      if (e.verb, e.path) in methodPaths {
        return Err(DuplicateMethodPath);
      }
      methodPaths := methodPaths + {(e.verb, e.path)};
      if e.exclusion.Some? && IsBlank(e.exclusion.value) {
        return Err(BlankReason);
      }
      var obligationsOk := ValidateObligations(e, contracts, inventory);
      if !obligationsOk {
        return Err(BadObligation);
      }
      var linksOk := ValidateSharedLinks(e, contracts, inventory);
      if !linksOk {
        return Err(BadSharedLink);
      }
    }
    assert catalog[..|catalog|] == catalog;
    return Ok(());
  }
}
