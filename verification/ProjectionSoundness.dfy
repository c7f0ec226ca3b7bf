/** The topology validator accepts the projection of a list of declarations exactly when the declarations are
    well formed, a condition on the declarations themselves. */
module ProjectionSoundness {
  import opened Wrappers
  import opened Text
  import opened Catalogue
  import opened Topology
  import opened Permutations

  // ----- well-formed declarations

  /** A located child of an HTTP parent. */
  predicate LocatedOk(op: OperationDecl, c: ContractDecl, location: Location) {
    && !(op.surface == Api && location == SseLocation)
    && (location == ErrorLocation ==> c.binding == SharedComponent)
    && (c.binding == ExactSurface ==> !IsBlank(ClaimedKey(op, c)))
    && c.direction == ExpectedDirection(location)
    && (c.parameters != [] ==> TakesParameters(location))
    && ParametersOk(c.parameters, location)
  }

  predicate ChildOk(op: OperationDecl, c: ContractDecl) {
    && (c.binding == ExactSurface ==> c.granularity == Exact)
    && if OverHttp(op.surface) then c.location.Some? && LocatedOk(op, c, c.location.value)
       else op.verb.None? || op.path.None? || c.location.None?
  }

  ghost predicate Declares(ops: seq<OperationDecl>, op: OperationDecl, c: ContractDecl) {
    op in ops && c in op.contracts
  }

  function DeclIds(cs: seq<ContractDecl>): seq<string> {
    if cs == [] then [] else [cs[0].id] + DeclIds(cs[1..])
  }

  function DeclaredIds(ops: seq<OperationDecl>): seq<string> {
    if ops == [] then [] else DeclIds(ops[0].contracts) + DeclaredIds(ops[1..])
  }

  function Ids(inventory: seq<Contract>): seq<string> {
    if inventory == [] then [] else [inventory[0].id] + Ids(inventory[1..])
  }

  /** An exact child of `owner` is what the obligation of `op` calls for. */
  predicate Serves(owner: OperationDecl, c: ContractDecl, kind: Kind, op: OperationDecl)
    requires op.verb.Some? && op.path.Some?
  {
    && c.binding == ExactSurface && owner.surface == op.surface && c.location == Some(kind.Location())
    && ClaimedKey(owner, c) == OperationKey(op.verb.value, op.path.value)
    && (kind == PathKind ==> Names(c.parameters) == Placeholders(Split(op.path.value, '/')))
    && (kind == SseKind ==> op.surface == Sse)
  }

  ghost predicate SomeoneServes(id: string, kind: Kind, op: OperationDecl, ops: seq<OperationDecl>,
                                extras: seq<Contract>)
    requires op.verb.Some? && op.path.Some?
  {
    || (exists owner, c :: Declares(ops, owner, c) && c.id == id && Serves(owner, c, kind, op))
    || (exists x :: x in extras && x.id == id && Fulfils(x, kind, op.surface, op.verb.value, op.path.value))
  }

  /** The obligation of `op` is answered: by an override, by its own first exact child, or by being left open
      where that is allowed. */
  ghost predicate Answered(op: OperationDecl, kind: Kind, ops: seq<OperationDecl>, extras: seq<Contract>)
    requires op.verb.Some? && op.path.Some?
  {
    match FindOverride(op.overrides, kind)
    case Some(ContractOf(id)) => SomeoneServes(id, kind, op, ops, extras)
    case Some(obligation) => MayLeave(kind, obligation, op.surface, op.path.value)
    case None =>
      match FindExact(op.contracts, kind.Location())
      case Some(c) =>
        && ClaimedKey(op, c) == OperationKey(op.verb.value, op.path.value)
        && (kind == PathKind ==> Names(c.parameters) == Placeholders(Split(op.path.value, '/')))
      case None => MayLeave(kind, NotApplicable, op.surface, op.path.value)
  }

  ghost predicate LinkOk(link: string, surface: Surface, ops: seq<OperationDecl>, extras: seq<Contract>) {
    || (exists owner, c ::
      Declares(ops, owner, c) && c.id == link && c.binding == SharedComponent && owner.surface == surface)
    || (exists x :: x in extras && x.id == link && Linkable(x, surface))
  }

  ghost predicate OperationOk(op: OperationDecl, ops: seq<OperationDecl>, extras: seq<Contract>)
    requires OverHttp(op.surface) && Projectable(op)
  {
    && op.operationId != [] && op.path.value != [] && ReasonOk(op.exclusion)
    && (forall kind: Kind :: Answered(op, kind, ops, extras))
    && Distinct(op.sharedComponents)
    && (forall i :: 0 <= i < |op.sharedComponents| ==> LinkOk(op.sharedComponents[i], op.surface, ops, extras))
  }

  function HttpOps(ops: seq<OperationDecl>): seq<OperationDecl> {
    if ops == [] then [] else (if OverHttp(ops[0].surface) then [ops[0]] else []) + HttpOps(ops[1..])
  }

  ghost predicate DistinctOperations(ops: seq<OperationDecl>) {
    && (forall i, j :: 0 <= i < j < |ops| ==> ops[i].operationId != ops[j].operationId)
    && (forall i, j :: 0 <= i < j < |ops| ==> (ops[i].verb, ops[i].path) != (ops[j].verb, ops[j].path))
  }

  ghost predicate AllProjectable(ops: seq<OperationDecl>) {
    forall op :: op in ops ==> Projectable(op)
  }

  /** Well-formed declarations, beside contracts that are declared elsewhere. */
  ghost predicate WellFormed(ops: seq<OperationDecl>, extras: seq<Contract>)
    requires AllProjectable(ops)
  {
    && Distinct(DeclaredIds(ops) + Ids(extras))
    && (forall op, c :: Declares(ops, op, c) ==> ChildOk(op, c))
    && (forall x :: x in extras ==> TransportOk(x))
    && DistinctOperations(HttpOps(ops))
    && (forall op :: op in ops && OverHttp(op.surface) ==> OperationOk(op, ops, extras))
  }

  // ----- the projected contracts

  lemma ChildIffTransport(op: OperationDecl, c: ContractDecl)
    requires Projectable(op)
    ensures TransportOk(ContractIn(op, c)) <==> ChildOk(op, c)
  {
  }

  lemma {:induction false} ProjectedContracts(ops: seq<OperationDecl>, x: Contract)
    ensures x in Contracts(ops) <==> exists op, c :: Declares(ops, op, c) && x == ContractIn(op, c)
    decreases |ops|
  {
    if ops != [] {
      ProjectedContracts(ops[1..], x);
      ChildrenProjected(ops[0], x);
      DeclaredFirstOrLater(ops, x);
    }
  }

  lemma ChildrenProjected(op: OperationDecl, x: Contract)
    ensures x in ContractsOf(op) <==> exists c :: c in op.contracts && x == ContractIn(op, c)
  {
    if x in ContractsOf(op) {
      var i :| 0 <= i < |op.contracts| && ContractsOf(op)[i] == x;
      assert op.contracts[i] in op.contracts;
    }
    if c :| c in op.contracts && x == ContractIn(op, c) {
      var i :| 0 <= i < |op.contracts| && op.contracts[i] == c;
      assert ContractsOf(op)[i] == x;
    }
  }

  lemma DeclaredFirstOrLater(ops: seq<OperationDecl>, x: Contract)
    requires ops != []
    ensures (exists op, c :: Declares(ops, op, c) && x == ContractIn(op, c)) <==>
            || (exists c :: c in ops[0].contracts && x == ContractIn(ops[0], c))
            || (exists op, c :: Declares(ops[1..], op, c) && x == ContractIn(op, c))
  {
    assert ops == [ops[0]] + ops[1..];
    if c :| c in ops[0].contracts && x == ContractIn(ops[0], c) {
      assert Declares(ops, ops[0], c);
    }
    if op, c :| Declares(ops[1..], op, c) && x == ContractIn(op, c) {
      assert Declares(ops, op, c);
    }
    if op, c :| Declares(ops, op, c) && x == ContractIn(op, c) {
      assert op == ops[0] || Declares(ops[1..], op, c);
    }
  }

  lemma {:induction false} IdsOfBoth(a: seq<Contract>, b: seq<Contract>)
    ensures Ids(a + b) == Ids(a) + Ids(b)
    decreases |a|
  {
    if a == [] {
      assert a + b == b;
    } else {
      IdsOfBoth(a[1..], b);
      assert (a + b)[1..] == a[1..] + b;
    }
  }

  lemma {:induction false} IdsAt(inventory: seq<Contract>)
    ensures |Ids(inventory)| == |inventory| && forall i :: 0 <= i < |inventory| ==> Ids(inventory)[i] == inventory[i].id
    decreases |inventory|
  {
    if inventory != [] {
      IdsAt(inventory[1..]);
    }
  }

  lemma {:induction false} IdsOfChildren(op: OperationDecl, n: nat)
    requires n <= |op.contracts|
    ensures Ids(ContractsOf(op)[n..]) == DeclIds(op.contracts[n..])
    decreases |op.contracts| - n
  {
    if n < |op.contracts| {
      IdsOfChildren(op, n + 1);
      assert ContractsOf(op)[n..][1..] == ContractsOf(op)[n + 1..];
      assert op.contracts[n..][1..] == op.contracts[n + 1..];
    }
  }

  lemma {:induction false} ProjectedIds(ops: seq<OperationDecl>)
    ensures Ids(Contracts(ops)) == DeclaredIds(ops)
    decreases |ops|
  {
    if ops != [] {
      ProjectedIds(ops[1..]);
      IdsOfChildren(ops[0], 0);
      assert ContractsOf(ops[0])[0..] == ContractsOf(ops[0]) && ops[0].contracts[0..] == ops[0].contracts;
      IdsOfBoth(ContractsOf(ops[0]), Contracts(ops[1..]));
    }
  }

  lemma DistinctIdsIff(ops: seq<OperationDecl>, extras: seq<Contract>)
    ensures DistinctIds(Contracts(ops) + extras) <==> Distinct(DeclaredIds(ops) + Ids(extras))
  {
    var inventory := Contracts(ops) + extras;
    IdsOfBoth(Contracts(ops), extras);
    ProjectedIds(ops);
    IdsAt(inventory);
    assert Ids(inventory) == DeclaredIds(ops) + Ids(extras);
    assert forall i, j :: 0 <= i < j < |inventory| ==>
             (inventory[i].id != inventory[j].id <==> Ids(inventory)[i] != Ids(inventory)[j]);
  }

  lemma InventoryIff(ops: seq<OperationDecl>, extras: seq<Contract>)
    requires AllProjectable(ops)
    ensures InventoryOk(Contracts(ops) + extras) <==>
            && Distinct(DeclaredIds(ops) + Ids(extras))
            && (forall op, c :: Declares(ops, op, c) ==> ChildOk(op, c))
            && (forall x :: x in extras ==> TransportOk(x))
  {
    var inventory := Contracts(ops) + extras;
    DistinctIdsIff(ops, extras);
    assert InventoryOk(inventory) <==> DistinctIds(inventory) && forall x :: x in inventory ==> TransportOk(x);
    forall op, c | Declares(ops, op, c)
      ensures ContractIn(op, c) in inventory && (TransportOk(ContractIn(op, c)) <==> ChildOk(op, c))
    {
      ProjectedContracts(ops, ContractIn(op, c));
      ChildIffTransport(op, c);
    }
    forall x | x in inventory
      ensures x in extras || exists op, c :: Declares(ops, op, c) && x == ContractIn(op, c)
    {
      ProjectedContracts(ops, x);
    }
  }

  // ----- the projected endpoints

  lemma {:induction false} ProjectedEndpoints(ops: seq<OperationDecl>)
    requires AllProjectable(ops)
    ensures |Endpoints(ops)| == |HttpOps(ops)|
    ensures forall i :: 0 <= i < |HttpOps(ops)| ==>
              OverHttp(HttpOps(ops)[i].surface) && Projectable(HttpOps(ops)[i]) &&
              Endpoints(ops)[i] == EndpointOf(HttpOps(ops)[i])
    decreases |ops|
  {
    if ops != [] {
      ProjectedEndpoints(ops[1..]);
    }
  }

  lemma {:induction false} HttpOpsAre(ops: seq<OperationDecl>)
    ensures forall op :: op in HttpOps(ops) <==> op in ops && OverHttp(op.surface)
    decreases |ops|
  {
    if ops != [] {
      HttpOpsAre(ops[1..]);
      assert ops == [ops[0]] + ops[1..];
    }
  }

  /** What is declared, as the validator sees it. */
  ghost predicate Sees(ops: seq<OperationDecl>, extras: seq<Contract>, inventory: seq<Contract>) {
    && inventory == Contracts(ops) + extras
    && InventoryOk(inventory)
    && (forall op, c :: Declares(ops, op, c) ==> ChildOk(op, c))
  }

  lemma {:induction false} ExactChild(cs: seq<ContractDecl>, location: Location)
    ensures var found := FindExact(cs, location);
            found.Some? ==>
              found.value in cs && found.value.binding == ExactSurface && found.value.location == Some(location)
    decreases |cs|
  {
    if cs != [] {
      ExactChild(cs[1..], location);
    }
  }

  lemma ServesIffFulfils(owner: OperationDecl, c: ContractDecl, kind: Kind, op: OperationDecl)
    requires Projectable(owner) && ChildOk(owner, c) && OverHttp(op.surface) && Projectable(op)
    ensures Serves(owner, c, kind, op) <==>
            Fulfils(ContractIn(owner, c), kind, op.surface, op.verb.value, op.path.value)
  {
  }

  lemma ServingChild(owner: OperationDecl, c: ContractDecl, kind: Kind, op: OperationDecl, ops: seq<OperationDecl>,
                     extras: seq<Contract>, inventory: seq<Contract>)
    requires AllProjectable(ops) && Sees(ops, extras, inventory) && OverHttp(op.surface) && Projectable(op)
    requires Declares(ops, owner, c)
    ensures ContractIn(owner, c) in inventory
    ensures Serves(owner, c, kind, op) <==>
            Fulfils(ContractIn(owner, c), kind, op.surface, op.verb.value, op.path.value)
  {
    ProjectedContracts(ops, ContractIn(owner, c));
    ServesIffFulfils(owner, c, kind, op);
  }

  lemma SomeoneServesIff(id: string, kind: Kind, op: OperationDecl, ops: seq<OperationDecl>, extras: seq<Contract>,
                         inventory: seq<Contract>)
    requires AllProjectable(ops) && Sees(ops, extras, inventory) && OverHttp(op.surface) && Projectable(op)
    ensures SomeoneServes(id, kind, op, ops, extras) <==>
            exists x :: x in inventory && x.id == id && Fulfils(x, kind, op.surface, op.verb.value, op.path.value)
  {
    if owner, c :| Declares(ops, owner, c) && c.id == id && Serves(owner, c, kind, op) {
      ServingChild(owner, c, kind, op, ops, extras, inventory);
    }
    if x :| x in inventory && x.id == id && Fulfils(x, kind, op.surface, op.verb.value, op.path.value) {
      ProjectedContracts(ops, x);
      if x !in extras {
        var owner, c :| Declares(ops, owner, c) && x == ContractIn(owner, c);
        ServingChild(owner, c, kind, op, ops, extras, inventory);
      }
    }
  }

  lemma AnsweredIff(op: OperationDecl, kind: Kind, ops: seq<OperationDecl>, extras: seq<Contract>,
                    inventory: seq<Contract>)
    requires AllProjectable(ops) && Sees(ops, extras, inventory) && op in ops && OverHttp(op.surface)
    ensures Answered(op, kind, ops, extras) <==> ObligationOk(EndpointOf(op), kind, inventory)
  {
    var override := FindOverride(op.overrides, kind);
    assert EndpointOf(op).obligations.Of(kind) == ObligationOf(op, kind);
    if override.Some? && override.value.ContractOf? {
      SomeoneServesIff(override.value.id, kind, op, ops, extras, inventory);
    } else if override.None? && FindExact(op.contracts, kind.Location()).Some? {
      var c := FindExact(op.contracts, kind.Location()).value;
      ExactChild(op.contracts, kind.Location());
      assert Declares(ops, op, c);
      ProjectedContracts(ops, ContractIn(op, c));
      ServesIffFulfils(op, c, kind, op);
      assert ContractIn(op, c) in inventory;
      OnlyOneOfId(inventory, ContractIn(op, c));
    }
  }

  lemma OnlyOneOfId(inventory: seq<Contract>, x: Contract)
    requires DistinctIds(inventory) && x in inventory
    ensures forall y :: y in inventory && y.id == x.id ==> y == x
  {
  }

  lemma LinkIff(link: string, surface: Surface, ops: seq<OperationDecl>, extras: seq<Contract>,
                inventory: seq<Contract>)
    requires AllProjectable(ops) && Sees(ops, extras, inventory) && OverHttp(surface)
    ensures LinkOk(link, surface, ops, extras) <==> LinkKnown(link, surface, inventory)
  {
    forall owner, c | Declares(ops, owner, c)
      ensures ContractIn(owner, c) in inventory
      ensures Linkable(ContractIn(owner, c), surface) <==> c.binding == SharedComponent && owner.surface == surface
    {
      ProjectedContracts(ops, ContractIn(owner, c));
    }
    if LinkKnown(link, surface, inventory) {
      var x :| x in inventory && x.id == link && Linkable(x, surface);
      ProjectedContracts(ops, x);
      if x !in extras {
        var owner, c :| Declares(ops, owner, c) && x == ContractIn(owner, c);
      }
    }
  }

  lemma OperationIff(op: OperationDecl, ops: seq<OperationDecl>, extras: seq<Contract>, inventory: seq<Contract>)
    requires AllProjectable(ops) && Sees(ops, extras, inventory) && op in ops && OverHttp(op.surface)
    ensures OperationOk(op, ops, extras) <==> EndpointOk(EndpointOf(op), inventory)
  {
    forall kind: Kind ensures Answered(op, kind, ops, extras) <==> ObligationOk(EndpointOf(op), kind, inventory) {
      AnsweredIff(op, kind, ops, extras, inventory);
    }
    forall i | 0 <= i < |op.sharedComponents|
      ensures LinkOk(op.sharedComponents[i], op.surface, ops, extras) <==>
              LinkKnown(op.sharedComponents[i], op.surface, inventory)
    {
      LinkIff(op.sharedComponents[i], op.surface, ops, extras, inventory);
    }
    var links, e := op.sharedComponents, EndpointOf(op);
    assert SharedLinksOk(links, op.surface, inventory) <==>
           Distinct(links) && forall i :: 0 <= i < |links| ==> LinkOk(links[i], op.surface, ops, extras);
    assert (forall kind: Kind :: Answered(op, kind, ops, extras)) <==>
      (forall kind: Kind :: ObligationOk(e, kind, inventory));
  }

  lemma DistinctOperationsIff(ops: seq<OperationDecl>)
    requires AllProjectable(ops)
    ensures DistinctOperations(HttpOps(ops)) <==> DistinctEndpoints(Endpoints(ops))
  {
    ProjectedEndpoints(ops);
    var http, endpoints := HttpOps(ops), Endpoints(ops);
    forall i, j | 0 <= i < j < |http|
      ensures http[i].operationId == endpoints[i].operationId && http[j].operationId == endpoints[j].operationId
      ensures (http[i].verb, http[i].path) == (http[j].verb, http[j].path) <==>
              (endpoints[i].verb, endpoints[i].path) == (endpoints[j].verb, endpoints[j].path)
    {
      assert endpoints[i] == EndpointOf(http[i]) && endpoints[j] == EndpointOf(http[j]);
    }
  }

  /** The validator accepts the projection if and only if the declarations are well formed. */
  lemma ProjectionAcceptedIff(ops: seq<OperationDecl>, extras: seq<Contract>)
    requires AllProjectable(ops)
    ensures TopologyOk(Endpoints(ops), Contracts(ops) + extras) <==> WellFormed(ops, extras)
  {
    var inventory, endpoints := Contracts(ops) + extras, Endpoints(ops);
    InventoryIff(ops, extras);
    DistinctOperationsIff(ops);
    if InventoryOk(inventory) {
      assert Sees(ops, extras, inventory);
      OperationsIff(ops, extras, inventory);
    }
  }

  lemma OperationsIff(ops: seq<OperationDecl>, extras: seq<Contract>, inventory: seq<Contract>)
    requires AllProjectable(ops) && Sees(ops, extras, inventory)
    ensures (forall i :: 0 <= i < |Endpoints(ops)| ==> EndpointOk(Endpoints(ops)[i], inventory)) <==>
            forall op :: op in ops && OverHttp(op.surface) ==> OperationOk(op, ops, extras)
  {
    var http, endpoints := HttpOps(ops), Endpoints(ops);
    ProjectedEndpoints(ops);
    HttpOpsAre(ops);
    forall i | 0 <= i < |http|
      ensures http[i] in ops && OverHttp(http[i].surface)
      ensures OperationOk(http[i], ops, extras) <==> EndpointOk(endpoints[i], inventory)
    {
      assert http[i] in http;
      OperationIff(http[i], ops, extras, inventory);
    }
    forall op | op in ops && OverHttp(op.surface) ensures exists i :: 0 <= i < |http| && http[i] == op {
      assert op in http;
    }
  }
}
