/** Operation and contract declarations, and their projection to endpoints, contracts and surfaces. */
module Catalogue {
  import opened Wrappers

  datatype Surface = Api | Cli | Jsonl | Sse | Metadata | Config

  datatype Direction = Serialize | Deserialize | Bidirectional

  datatype Strictness = DenyUnknownFields | Typed | OpaqueExtension

  datatype Granularity = Exact | Family

  datatype Binding = ExactSurface | SharedComponent

  datatype Location =
    | PathLocation | QueryLocation | HeadersLocation | BodyLocation | SuccessLocation | ErrorLocation | SseLocation

  datatype Cardinality = RequiredOne | OptionalOne | RepeatedOrdered

  datatype Parameter = Parameter(name: string, cardinality: Option<Cardinality>)

  datatype Transport = NoTransport | Http(operationKey: Option<string>, location: Location, parameters: seq<Parameter>)

  datatype Contract = Contract(
    id: string, path: string, surface: Surface, operation: string, direction: Direction, granularity: Granularity,
    strictness: Strictness, schemaId: Option<string>, fixture: Option<string>, exclusion: Option<string>,
    transport: Transport, binding: Binding)

  datatype HttpMethod = Get | Post | Put | Patch | Delete

  datatype Obligation = ContractOf(id: string) | NotApplicable | Excluded(reason: string) | Todo

  datatype Kind = PathKind | QueryKind | HeadersKind | BodyKind | SuccessKind | SseKind {
    function Location(): Location {
      match this
      case PathKind => PathLocation
      case QueryKind => QueryLocation
      case HeadersKind => HeadersLocation
      case BodyKind => BodyLocation
      case SuccessKind => SuccessLocation
      case SseKind => SseLocation
    }

    predicate IsInput() {
      PathKind? || QueryKind? || HeadersKind? || BodyKind?
    }
  }

  datatype Obligations = Obligations(
    path: Obligation, query: Obligation, headers: Obligation, body: Obligation, success: Obligation, sse: Obligation)
  {
    function Of(kind: Kind): Obligation {
      match kind
      case PathKind => path
      case QueryKind => query
      case HeadersKind => headers
      case BodyKind => body
      case SuccessKind => success
      case SseKind => sse
    }
  }

  const KINDS := [PathKind, QueryKind, HeadersKind, BodyKind, SuccessKind, SseKind]

  lemma AllKinds(kind: Kind)
    ensures kind in KINDS
  {
    assert kind == KINDS[0] || kind == KINDS[1] || kind == KINDS[2]
        || kind == KINDS[3] || kind == KINDS[4] || kind == KINDS[5];
  }

  datatype Endpoint = Endpoint(
    operationId: string, surface: Surface, verb: HttpMethod, path: string, exclusion: Option<string>,
    sharedComponents: seq<string>, obligations: Obligations)

  datatype ContractDecl = ContractDecl(
    id: string, path: string, operation: Option<string>, location: Option<Location>, operationKey: Option<string>,
    parameters: seq<Parameter>, direction: Direction, strictness: Strictness, granularity: Granularity,
    binding: Binding, schemaId: Option<string>, artifactPath: Option<string>, validFixture: Option<string>,
    invalidFixture: Option<string>, exclusion: Option<string>)

  datatype OperationDecl = OperationDecl(
    operationId: string, surface: Surface, verb: Option<HttpMethod>, path: Option<string>, operation: string,
    key: string, exclusion: Option<string>, sharedComponents: seq<string>, overrides: seq<(Kind, Obligation)>,
    contracts: seq<ContractDecl>)

  datatype SurfaceOperation = SurfaceOperation(
    key: string, surface: Surface, contracts: seq<string>, exclusion: Option<string>)

  predicate OverHttp(surface: Surface) {
    surface.Api? || surface.Sse?
  }

  /** Unicode white space, which `str::trim` removes. */
  predicate IsSpace(c: char) {
    var n := c as int;
    9 <= n <= 13 || n == 32 || n == 0x85 || n == 0xA0 || n == 0x1680 || 0x2000 <= n <= 0x200A
    || n == 0x2028 || n == 0x2029 || n == 0x202F || n == 0x205F || n == 0x3000
  }

  predicate IsBlank(s: string) {
    forall i :: 0 <= i < |s| ==> IsSpace(s[i])
  }

  function MethodName(verb: HttpMethod): string {
    match verb
    case Get => "GET"
    case Post => "POST"
    case Put => "PUT"
    case Patch => "PATCH"
    case Delete => "DELETE"
  }

  function OperationKey(verb: HttpMethod, path: string): string {
    MethodName(verb) + " " + path
  }

  // ----- projection

  function FindOverride(overrides: seq<(Kind, Obligation)>, kind: Kind): Option<Obligation> {
    if overrides == [] then None
    else if overrides[0].0 == kind then Some(overrides[0].1)
    else FindOverride(overrides[1..], kind)
  }

  /** The first exact child at a location. */
  function FindExact(contracts: seq<ContractDecl>, location: Location): Option<ContractDecl> {
    if contracts == [] then None
    else if contracts[0].binding == ExactSurface && contracts[0].location == Some(location) then Some(contracts[0])
    else FindExact(contracts[1..], location)
  }

  /** `OperationDeclaration::obligation`. */
  function ObligationOf(op: OperationDecl, kind: Kind): Obligation {
    match FindOverride(op.overrides, kind)
    case Some(obligation) => obligation
    case None =>
      match FindExact(op.contracts, kind.Location())
      case Some(contract) => ContractOf(contract.id)
      case None => NotApplicable
  }

  /** An HTTP parent must name its method and path; the projection panics without them. */
  predicate Projectable(op: OperationDecl) {
    OverHttp(op.surface) ==> op.verb.Some? && op.path.Some?
  }

  /** `OperationDeclaration::endpoint_descriptor`. */
  function EndpointOf(op: OperationDecl): Endpoint
    requires OverHttp(op.surface) && Projectable(op)
  {
    Endpoint(op.operationId, op.surface, op.verb.value, op.path.value, op.exclusion, op.sharedComponents,
             Obligations(ObligationOf(op, PathKind), ObligationOf(op, QueryKind), ObligationOf(op, HeadersKind),
                         ObligationOf(op, BodyKind), ObligationOf(op, SuccessKind), ObligationOf(op, SseKind)))
  }

  /** The key that an exact child claims. */
  function ClaimedKey(op: OperationDecl, c: ContractDecl): string {
    if c.operationKey.Some? then c.operationKey.value else if c.operation.Some? then c.operation.value else op.operation
  }

  /** `ContractDeclaration::operation_contract`. */
  function ContractIn(op: OperationDecl, c: ContractDecl): Contract {
    var transport :=
      if op.verb.Some? && op.path.Some? && c.location.Some? then
        Http(if c.binding == SharedComponent then None else Some(ClaimedKey(op, c)), c.location.value, c.parameters)
      else NoTransport;
    var operation := if c.operation.Some? then c.operation.value else op.operation;
    var exclusion := if c.exclusion.Some? then c.exclusion else op.exclusion;
    Contract(c.id, c.path, op.surface, operation, c.direction, c.granularity, c.strictness, c.schemaId, c.validFixture,
             exclusion, transport, c.binding)
  }

  /** `OperationDeclaration::operation_contracts`. */
  function ContractsOf(op: OperationDecl): (r: seq<Contract>)
    ensures |r| == |op.contracts| && forall i :: 0 <= i < |r| ==> r[i] == ContractIn(op, op.contracts[i])
  {
    seq(|op.contracts|, i requires 0 <= i < |op.contracts| => ContractIn(op, op.contracts[i]))
  }

  /** `CatalogProjection::endpoints`. */
  function Endpoints(ops: seq<OperationDecl>): seq<Endpoint>
    requires forall i :: 0 <= i < |ops| ==> Projectable(ops[i])
  {
    if ops == [] then [] else (if OverHttp(ops[0].surface) then [EndpointOf(ops[0])] else []) + Endpoints(ops[1..])
  }

  /** `CatalogProjection::contracts`. */
  function Contracts(ops: seq<OperationDecl>): seq<Contract> {
    if ops == [] then [] else ContractsOf(ops[0]) + Contracts(ops[1..])
  }
}
