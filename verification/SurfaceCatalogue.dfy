/** The catalogue of surface operations that the audit runs over: one entry for every endpoint, then the
    operations of the other surfaces. */
module SurfaceCatalogue {
  import opened Wrappers
  import opened Catalogue
  import opened Topology
  import opened SurfaceAudit
  import opened Permutations

  // ----- the entries

  /** The contracts that the first `n` obligations name. */
  function ObligedIds(e: Endpoint, n: nat): seq<string>
    requires n <= |KINDS|
  {
    if n == 0 then []
    else
      var obligation := e.obligations.Of(KINDS[n - 1]);
      ObligedIds(e, n - 1) + if obligation.ContractOf? then [obligation.id] else []
  }

  /** `endpoint_contract_references`. */
  function References(e: Endpoint): seq<string> {
    ObligedIds(e, |KINDS|) + e.sharedComponents
  }

  function EntryOf(e: Endpoint): SurfaceOperation {
    SurfaceOperation(OperationKey(e.verb, e.path), e.surface, References(e), e.exclusion)
  }

  function EndpointEntries(catalog: seq<Endpoint>): (entries: seq<SurfaceOperation>)
    ensures |entries| == |catalog| && forall i :: 0 <= i < |catalog| ==> entries[i] == EntryOf(catalog[i])
  {
    seq(|catalog|, i requires 0 <= i < |catalog| => EntryOf(catalog[i]))
  }

  /** `OperationDeclaration::surface_operation`. */
  function SurfaceOf(op: OperationDecl): SurfaceOperation {
    SurfaceOperation(op.key, op.surface, ExactIds(op.contracts) + op.sharedComponents, op.exclusion)
  }

  function ExactIds(cs: seq<ContractDecl>): seq<string> {
    if cs == [] then [] else (if cs[0].binding == ExactSurface then [cs[0].id] else []) + ExactIds(cs[1..])
  }

  const MAINTENANCE_ID := "api.maintenance-path.request"
  const MAINTENANCE_PATH := "/api/v1/" + "maintenance/" + "{operation}"

  /** The entry of the maintenance template, which no endpoint stands for. */
  const MAINTENANCE := SurfaceOperation(OperationKey(Post, MAINTENANCE_PATH), Api, [MAINTENANCE_ID], None)

  /** `non_transport_operations`, but for its last entry. */
  function OtherSurfaces(ops: seq<OperationDecl>): seq<SurfaceOperation> {
    if ops == [] then [] else (if OverHttp(ops[0].surface) then [] else [SurfaceOf(ops[0])]) + OtherSurfaces(ops[1..])
  }

  /** `surface_operation_catalog`: the keys of the endpoint entries are filled in by a second pass. */
  method SurfaceOperationCatalog(catalog: seq<Endpoint>, ops: seq<OperationDecl>)
    returns (entries: seq<SurfaceOperation>)
    ensures entries == EndpointEntries(catalog) + OtherSurfaces(ops) + [MAINTENANCE]
  {
    entries := seq(|catalog|, i requires 0 <= i < |catalog| => EntryOf(catalog[i]).(key := []));
    for i := 0 to |catalog|
      invariant |entries| == |catalog|
      invariant forall j :: 0 <= j < i ==> entries[j] == EntryOf(catalog[j])
      invariant forall j :: i <= j < |catalog| ==> entries[j] == EntryOf(catalog[j]).(key := [])
    {
      entries := entries[i := entries[i].(key := OperationKey(catalog[i].verb, catalog[i].path))];
    }
    assert entries == EndpointEntries(catalog);
    entries := entries + OtherSurfaces(ops) + [MAINTENANCE];
  }

  // ----- keys

  lemma OperationKeyIsInjective(verb: HttpMethod, path: string, verb': HttpMethod, path': string)
    requires OperationKey(verb, path) == OperationKey(verb', path')
    ensures verb == verb' && path == path'
  {
    var key, key' := OperationKey(verb, path), OperationKey(verb', path');
    assert key[0] == MethodName(verb)[0] && key[1] == MethodName(verb)[1];
    assert key'[0] == MethodName(verb')[0] && key'[1] == MethodName(verb')[1];
    assert key[|MethodName(verb)| + 1..] == path && key'[|MethodName(verb')| + 1..] == path';
  }

  lemma {:induction false} DotsAfter(prefix: string, s: string)
    requires '.' !in prefix
    ensures HasDots(prefix + s) <==> HasDots(s)
  {
    if prefix == [] {
      assert prefix + s == s;
    } else {
      DotsAfter(prefix[1..], s);
      assert (prefix + s)[1..] == prefix[1..] + s && (prefix + s)[0] == prefix[0];
    }
  }

  lemma KeyIsWellFormedIff(verb: HttpMethod, path: string)
    ensures KeyWellFormed(OperationKey(verb, path)) <==> !HasWildcard(path)
  {
    var prefix := MethodName(verb) + " ";
    assert OperationKey(verb, path) == prefix + path;
    assert '.' !in prefix && '*' !in prefix;
    DotsAfter(prefix, path);
    assert OperationKey(verb, path)[0] == MethodName(verb)[0] && !IsSpace(MethodName(verb)[0]);
  }

  // ----- what an accepted endpoint refers to

  lemma {:induction false} ObligedIdsIff(e: Endpoint, n: nat, id: string)
    requires n <= |KINDS|
    ensures id in ObligedIds(e, n) <==> exists k :: 0 <= k < n && e.obligations.Of(KINDS[k]) == ContractOf(id)
  {
    if n > 0 {
      ObligedIdsIff(e, n - 1, id);
    }
  }

  lemma ObligedIff(e: Endpoint, id: string)
    ensures id in ObligedIds(e, |KINDS|) <==> Obliged(e, id)
  {
    ObligedIdsIff(e, |KINDS|, id);
    if Obliged(e, id) {
      var kind: Kind :| e.obligations.Of(kind) == ContractOf(id);
      AllKinds(kind);
    }
  }

  lemma ObligedFits(e: Endpoint, kind: Kind, inventory: seq<Contract>, operations: Operations)
    requires EndpointOk(e, inventory) && IndexesContracts(inventory, operations)
    requires e.obligations.Of(kind).ContractOf?
    ensures var id := e.obligations.Of(kind).id;
            id in operations && Fulfils(operations[id], kind, e.surface, e.verb, e.path)
  {
    assert ObligationOk(e, kind, inventory);
  }

  lemma SharedFits(e: Endpoint, id: string, inventory: seq<Contract>, operations: Operations)
    requires EndpointOk(e, inventory) && IndexesContracts(inventory, operations) && id in e.sharedComponents
    ensures id in operations && Linkable(operations[id], e.surface)
  {
    assert LinkKnown(id, e.surface, inventory);
  }

  lemma {:induction false} ObligedIdsDistinct(e: Endpoint, n: nat, inventory: seq<Contract>, operations: Operations)
    requires n <= |KINDS| && EndpointOk(e, inventory) && IndexesContracts(inventory, operations)
    ensures Distinct(ObligedIds(e, n))
  {
    if n > 0 {
      ObligedIdsDistinct(e, n - 1, inventory, operations);
      var obligation := e.obligations.Of(KINDS[n - 1]);
      if obligation.ContractOf? {
        ObligedIdsIff(e, n - 1, obligation.id);
        ObligedFits(e, KINDS[n - 1], inventory, operations);
        if k :| 0 <= k < n - 1 && e.obligations.Of(KINDS[k]) == obligation {
          ObligedFits(e, KINDS[k], inventory, operations);
          assert false;
        }
      }
    }
  }

  /** An accepted endpoint refers to each contract once; an exact one is an obligation's, with its key. */
  lemma ReferencesFit(e: Endpoint, id: string, inventory: seq<Contract>, operations: Operations)
    requires EndpointOk(e, inventory) && IndexesContracts(inventory, operations) && id in References(e)
    ensures id in operations && operations[id].surface == e.surface
    ensures IsExact(id, operations) <==> Obliged(e, id)
    ensures IsExact(id, operations) ==> BindingOk(EntryOf(e), id, operations)
  {
    ObligedIff(e, id);
    if Obliged(e, id) {
      var kind: Kind :| e.obligations.Of(kind) == ContractOf(id);
      ObligedFits(e, kind, inventory, operations);
    } else {
      SharedFits(e, id, inventory, operations);
    }
  }

  lemma ReferencesDistinct(e: Endpoint, inventory: seq<Contract>, operations: Operations)
    requires EndpointOk(e, inventory) && IndexesContracts(inventory, operations)
    ensures Distinct(References(e))
  {
    var obliged := ObligedIds(e, |KINDS|);
    ObligedIdsDistinct(e, |KINDS|, inventory, operations);
    forall id | id in obliged ensures id !in e.sharedComponents {
      ReferencesFit(e, id, inventory, operations);
      ObligedIff(e, id);
      if id in e.sharedComponents {
        SharedFits(e, id, inventory, operations);
      }
    }
    DistinctBoth(obliged, e.sharedComponents);
  }

  // ----- what is left for the audit of an accepted catalogue

  /** An excluded endpoint refers to nothing, an active one has a contract of its own. */
  ghost predicate Settled(e: Endpoint) {
    !HasWildcard(e.path) &&
    if e.exclusion.Some? then References(e) == [] else exists id :: Obliged(e, id)
  }

  lemma EntryOkIff(e: Endpoint, inventory: seq<Contract>, operations: Operations)
    requires EndpointOk(e, inventory) && IndexesContracts(inventory, operations)
    ensures SurfaceOk(EntryOf(e), operations) <==> Settled(e)
  {
    KeyIsWellFormedIff(e.verb, e.path);
    ReferencesDistinct(e, inventory, operations);
    forall id | id in References(e)
      ensures id in operations && operations[id].surface == e.surface && (IsExact(id, operations) <==> Obliged(e, id))
    {
      ReferencesFit(e, id, inventory, operations);
    }
    forall id | Obliged(e, id) ensures id in References(e) {
      ObligedIff(e, id);
    }
  }

  /** An active endpoint has the contract as an obligation. */
  ghost predicate Serves(catalog: seq<Endpoint>, i: nat, id: string) {
    i < |catalog| && catalog[i].exclusion.None? && Obliged(catalog[i], id)
  }

  lemma OwnsIffServes(catalog: seq<Endpoint>, i: nat, id: string, inventory: seq<Contract>, operations: Operations)
    requires TopologyOk(catalog, inventory) && IndexesContracts(inventory, operations)
    requires i < |catalog| && IsExact(id, operations)
    ensures Owns(EndpointEntries(catalog)[i], id) <==> Serves(catalog, i, id)
    ensures Serves(catalog, i, id) ==> BindingOk(EntryOf(catalog[i]), id, operations)
  {
    ObligedIff(catalog[i], id);
    if id in References(catalog[i]) {
      ReferencesFit(catalog[i], id, inventory, operations);
    }
  }

  /** Two endpoints never own the same exact contract: it claims the key of both. */
  lemma OneServes(catalog: seq<Endpoint>, i: nat, j: nat, id: string, inventory: seq<Contract>, operations: Operations)
    requires TopologyOk(catalog, inventory) && IndexesContracts(inventory, operations) && IsExact(id, operations)
    requires Serves(catalog, i, id) && Serves(catalog, j, id)
    ensures i == j
  {
    OwnsIffServes(catalog, i, id, inventory, operations);
    OwnsIffServes(catalog, j, id, inventory, operations);
    OperationKeyIsInjective(catalog[i].verb, catalog[i].path, catalog[j].verb, catalog[j].path);
  }

  lemma EndpointKeysUnique(catalog: seq<Endpoint>)
    requires DistinctEndpoints(catalog)
    ensures UniqueKeys(EndpointEntries(catalog))
  {
    forall i, j | 0 <= i < j < |catalog| ensures EntryOf(catalog[i]).key != EntryOf(catalog[j]).key {
      if EntryOf(catalog[i]).key == EntryOf(catalog[j]).key {
        OperationKeyIsInjective(catalog[i].verb, catalog[i].path, catalog[j].verb, catalog[j].path);
      }
    }
  }

  ghost predicate KeysApart(catalog: seq<Endpoint>, rest: seq<SurfaceOperation>) {
    forall i, j :: 0 <= i < |catalog| && 0 <= j < |rest| ==>
      (catalog[i].surface, OperationKey(catalog[i].verb, catalog[i].path)) != (rest[j].surface, rest[j].key)
  }

  /** An exact contract is served by an endpoint and owned by no other entry, or owned once among the others. */
  ghost predicate Placed(id: string, catalog: seq<Endpoint>, rest: seq<SurfaceOperation>, operations: Operations)
    requires id in operations
  {
    if exists i: nat :: Serves(catalog, i, id) then forall j :: 0 <= j < |rest| ==> !Owns(rest[j], id)
    else OwnedOnce(id, rest, operations)
  }

  lemma UniqueKeysIff(catalog: seq<Endpoint>, rest: seq<SurfaceOperation>)
    requires DistinctEndpoints(catalog)
    ensures UniqueKeys(EndpointEntries(catalog) + rest) <==> UniqueKeys(rest) && KeysApart(catalog, rest)
  {
    var ours := EndpointEntries(catalog);
    var all := ours + rest;
    EndpointKeysUnique(catalog);
    if UniqueKeys(all) {
      forall i, j | 0 <= i < j < |rest| ensures (rest[i].surface, rest[i].key) != (rest[j].surface, rest[j].key) {
        assert all[|ours| + i] == rest[i] && all[|ours| + j] == rest[j];
      }
      forall i, j | 0 <= i < |catalog| && 0 <= j < |rest|
        ensures (catalog[i].surface, OperationKey(catalog[i].verb, catalog[i].path)) != (rest[j].surface, rest[j].key)
      {
        assert all[i] == EntryOf(catalog[i]) && all[|ours| + j] == rest[j];
      }
    }
    if UniqueKeys(rest) && KeysApart(catalog, rest) {
      forall i, j | 0 <= i < j < |all| ensures (all[i].surface, all[i].key) != (all[j].surface, all[j].key) {
        EitherPart(ours, rest, i);
        EitherPart(ours, rest, j);
      }
    }
  }

  /** A contract has one owner in the whole catalogue exactly when it is placed. */
  lemma OwnedOnceIffPlaced(id: string, catalog: seq<Endpoint>, rest: seq<SurfaceOperation>, inventory: seq<Contract>,
                           operations: Operations)
    requires TopologyOk(catalog, inventory) && IndexesContracts(inventory, operations) && IsExact(id, operations)
    ensures OwnedOnce(id, EndpointEntries(catalog) + rest, operations) <==> Placed(id, catalog, rest, operations)
  {
    var ours := EndpointEntries(catalog);
    forall i | 0 <= i < |catalog| ensures Owns(ours[i], id) <==> Serves(catalog, i, id) {
      OwnsIffServes(catalog, i, id, inventory, operations);
    }
    if i: nat :| Serves(catalog, i, id) {
      OwnsIffServes(catalog, i, id, inventory, operations);
      forall j | 0 <= j < |ours| && Owns(ours[j], id) ensures j == i {
        OneServes(catalog, i, j, id, inventory, operations);
      }
      ServedOnce(id, ours, rest, i, operations);
    } else {
      OthersOwnIff(id, ours, rest, operations);
    }
  }

  lemma EitherPart(ours: seq<SurfaceOperation>, rest: seq<SurfaceOperation>, i: nat)
    requires i < |ours + rest|
    ensures (ours + rest)[i] == if i < |ours| then ours[i] else rest[i - |ours|]
  {
  }

  lemma ServedOnce(id: string, ours: seq<SurfaceOperation>, rest: seq<SurfaceOperation>, i: nat, operations: Operations)
    requires IsExact(id, operations) && i < |ours| && Owns(ours[i], id) && BindingOk(ours[i], id, operations)
    requires forall j :: 0 <= j < |ours| && Owns(ours[j], id) ==> j == i
    ensures OwnedOnce(id, ours + rest, operations) <==> forall j :: 0 <= j < |rest| ==> !Owns(rest[j], id)
  {
    var all := ours + rest;
    assert all[i] == ours[i];
    if OwnedOnce(id, all, operations) {
      forall j | 0 <= j < |rest| ensures !Owns(rest[j], id) {
        assert all[|ours| + j] == rest[j];
      }
    }
    if forall j :: 0 <= j < |rest| ==> !Owns(rest[j], id) {
      forall j | 0 <= j < |all| && Owns(all[j], id) ensures j == i {
        EitherPart(ours, rest, j);
      }
    }
  }

  lemma OthersOwnIff(id: string, ours: seq<SurfaceOperation>, rest: seq<SurfaceOperation>, operations: Operations)
    requires id in operations && forall i :: 0 <= i < |ours| ==> !Owns(ours[i], id)
    ensures OwnedOnce(id, ours + rest, operations) <==> OwnedOnce(id, rest, operations)
  {
    if OwnedOnce(id, ours + rest, operations) {
      OwnedAmongOthers(id, ours, rest, operations);
    }
    if OwnedOnce(id, rest, operations) {
      OwnedAmongAll(id, ours, rest, operations);
    }
  }

  lemma OwnedAmongOthers(id: string, ours: seq<SurfaceOperation>, rest: seq<SurfaceOperation>, operations: Operations)
    requires id in operations && forall i :: 0 <= i < |ours| ==> !Owns(ours[i], id)
    requires OwnedOnce(id, ours + rest, operations)
    ensures OwnedOnce(id, rest, operations)
  {
    var all := ours + rest;
    var i :| 0 <= i < |all| && Owns(all[i], id) && KeyOf(operations[id]) == Some(all[i].key);
    EitherPart(ours, rest, i);
    forall j, k | 0 <= j < |rest| && 0 <= k < |rest| && Owns(rest[j], id) && Owns(rest[k], id) ensures j == k {
      assert all[|ours| + j] == rest[j] && all[|ours| + k] == rest[k];
    }
  }

  lemma OwnedAmongAll(id: string, ours: seq<SurfaceOperation>, rest: seq<SurfaceOperation>, operations: Operations)
    requires id in operations && forall i :: 0 <= i < |ours| ==> !Owns(ours[i], id)
    requires OwnedOnce(id, rest, operations)
    ensures OwnedOnce(id, ours + rest, operations)
  {
    var all := ours + rest;
    var j :| 0 <= j < |rest| && Owns(rest[j], id) && KeyOf(operations[id]) == Some(rest[j].key);
    assert all[|ours| + j] == rest[j];
    forall i | 0 <= i < |all| && Owns(all[i], id) ensures i == |ours| + j {
      EitherPart(ours, rest, i);
    }
  }

  /** Once the topology is accepted, the audit of the whole catalogue comes down to this: every endpoint is
      settled, the other entries are in order and keep their keys apart, and every exact contract is placed.
      Keys, links and ownership among the endpoints themselves need no check of their own. */
  lemma SurfaceAuditSplits(catalog: seq<Endpoint>, rest: seq<SurfaceOperation>, inventory: seq<Contract>,
                           operations: Operations)
    requires TopologyOk(catalog, inventory) && IndexesContracts(inventory, operations)
    ensures SurfacesOk(EndpointEntries(catalog) + rest, operations) <==>
            && (forall i :: 0 <= i < |catalog| ==> Settled(catalog[i]))
            && (forall j :: 0 <= j < |rest| ==> SurfaceOk(rest[j], operations))
            && UniqueKeys(rest) && KeysApart(catalog, rest)
            && (forall id :: IsExact(id, operations) ==> Placed(id, catalog, rest, operations))
  {
    var all := EndpointEntries(catalog) + rest;
    UniqueKeysIff(catalog, rest);
    forall id | IsExact(id, operations)
      ensures OwnedOnce(id, all, operations) <==> Placed(id, catalog, rest, operations)
    {
      OwnedOnceIffPlaced(id, catalog, rest, inventory, operations);
    }
    EntriesOkIff(catalog, rest, inventory, operations);
  }

  lemma EntriesOkIff(catalog: seq<Endpoint>, rest: seq<SurfaceOperation>, inventory: seq<Contract>,
                     operations: Operations)
    requires TopologyOk(catalog, inventory) && IndexesContracts(inventory, operations)
    ensures var all := EndpointEntries(catalog) + rest;
            (forall i :: 0 <= i < |all| ==> SurfaceOk(all[i], operations)) <==>
            && (forall i :: 0 <= i < |catalog| ==> Settled(catalog[i]))
            && (forall j :: 0 <= j < |rest| ==> SurfaceOk(rest[j], operations))
  {
    var all := EndpointEntries(catalog) + rest;
    forall i | 0 <= i < |catalog|
      ensures all[i] == EntryOf(catalog[i]) && (SurfaceOk(all[i], operations) <==> Settled(catalog[i]))
    {
      EntryOkIff(catalog[i], inventory, operations);
    }
    assert forall j :: 0 <= j < |rest| ==> all[|catalog| + j] == rest[j];
    forall i | |catalog| <= i < |all| ensures all[i] == rest[i - |catalog|] {
    }
  }
}
