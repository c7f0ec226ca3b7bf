/** What the audit of the published catalogue asks of the declarations it is projected from. */
module DeclaredAudit {
  import opened Wrappers
  import opened Catalogue
  import opened Permutations
  import opened Topology
  import opened ProjectionSoundness
  import opened SurfaceAudit
  import opened SurfaceCatalogue
  import opened InventoryAudit

  /** A contract of the inventory: declared by an operation, or elsewhere. */
  ghost predicate IsContract(ops: seq<OperationDecl>, extras: seq<Contract>, x: Contract) {
    x in extras || exists op, c :: Declares(ops, op, c) && x == ContractIn(op, c)
  }

  // ----- conditions on the declarations

  ghost predicate EntriesDeclared(ops: seq<OperationDecl>, extras: seq<Contract>) {
    forall x :: IsContract(ops, extras, x) ==> EntryOk(x)
  }

  /** An excluded HTTP operation refers to nothing, an active one has a contract of its own. */
  ghost predicate HttpSettled(op: OperationDecl)
    requires op.path.Some?
  {
    && !HasWildcard(op.path.value)
    && if op.exclusion.Some? then op.sharedComponents == [] && forall kind: Kind :: !ObligationOf(op, kind).ContractOf?
       else exists kind: Kind :: ObligationOf(op, kind).ContractOf?
  }

  ghost predicate KnownOn(ops: seq<OperationDecl>, extras: seq<Contract>, id: string, surface: Surface) {
    exists x :: IsContract(ops, extras, x) && x.id == id && x.surface == surface
  }

  ghost predicate KnownExact(ops: seq<OperationDecl>, extras: seq<Contract>, id: string) {
    exists x :: IsContract(ops, extras, x) && x.id == id && x.binding == ExactSurface
  }

  /** An operation of another surface: an excluded one has no contracts, an active one links known contracts of
      its surface, each once, and at least one exact contract. */
  ghost predicate OtherSettled(op: OperationDecl, ops: seq<OperationDecl>, extras: seq<Contract>) {
    && KeyWellFormed(op.key)
    && if op.exclusion.Some? then
         ExactIds(op.contracts) == [] && op.sharedComponents == [] && !IsBlank(op.exclusion.value)
       else
         && Distinct(op.sharedComponents)
         && (forall id :: id in op.sharedComponents ==>
               id !in ExactIds(op.contracts) && KnownOn(ops, extras, id, op.surface))
         && (ExactIds(op.contracts) != [] || exists id :: id in op.sharedComponents && KnownExact(ops, extras, id))
  }

  ghost predicate MaintenanceKnown(ops: seq<OperationDecl>, extras: seq<Contract>) {
    KnownOn(ops, extras, MAINTENANCE_ID, Api) && KnownExact(ops, extras, MAINTENANCE_ID)
  }

  /** No HTTP operation has the maintenance template as its route. */
  ghost predicate MaintenanceApart(ops: seq<OperationDecl>) {
    forall op :: op in ops && op.surface == Api ==> !(op.verb == Some(Post) && op.path == Some(MAINTENANCE_PATH))
  }

  /** The contract has an owner, and only one, with the key it claims. */
  ghost predicate OwnedByOne(x: Contract, entries: seq<SurfaceOperation>) {
    && (exists i :: 0 <= i < |entries| && Owns(entries[i], x.id) && KeyOf(x) == Some(entries[i].key))
    && (forall i, j | 0 <= i < |entries| && 0 <= j < |entries| ::
          Owns(entries[i], x.id) && Owns(entries[j], x.id) ==> i == j)
  }

  /** An active HTTP operation has the contract as an obligation. */
  ghost predicate Obliging(ops: seq<OperationDecl>, id: string) {
    exists op, kind: Kind ::
      op in ops && OverHttp(op.surface) && op.exclusion.None? && ObligationOf(op, kind) == ContractOf(id)
  }

  function OtherEntries(ops: seq<OperationDecl>): seq<SurfaceOperation> {
    OtherSurfaces(ops) + [MAINTENANCE]
  }

  ghost predicate OwnerDeclared(x: Contract, ops: seq<OperationDecl>) {
    if Obliging(ops, x.id) then forall j :: 0 <= j < |OtherEntries(ops)| ==> !Owns(OtherEntries(ops)[j], x.id)
    else OwnedByOne(x, OtherEntries(ops))
  }

  ghost predicate SurfacesDeclared(ops: seq<OperationDecl>, extras: seq<Contract>)
    requires AllProjectable(ops)
  {
    && (forall op :: op in ops ==> if OverHttp(op.surface) then HttpSettled(op) else OtherSettled(op, ops, extras))
    && MaintenanceKnown(ops, extras)
    && UniqueKeys(OtherSurfaces(ops)) && MaintenanceApart(ops)
    && (forall x :: IsContract(ops, extras, x) && x.binding == ExactSurface ==> OwnerDeclared(x, ops))
  }

  /** Every shared component is listed by an operation of its surface. */
  ghost predicate SharedDeclared(ops: seq<OperationDecl>, extras: seq<Contract>) {
    forall x :: IsContract(ops, extras, x) && x.binding == SharedComponent ==>
      exists op :: op in ops && op.surface == x.surface && x.id in op.sharedComponents
  }

  // ----- the contracts by id

  ghost function ById(inventory: seq<Contract>): Operations {
    if inventory == [] then map[]
    else
      var init, c := inventory[..|inventory| - 1], inventory[|inventory| - 1];
      ById(init)[c.id := c]
  }

  lemma {:induction false} ByIdIndexes(inventory: seq<Contract>)
    requires DistinctIds(inventory)
    ensures IndexesContracts(inventory, ById(inventory))
    decreases |inventory|
  {
    if inventory != [] {
      var init, c := inventory[..|inventory| - 1], inventory[|inventory| - 1];
      ByIdIndexes(init);
      assert inventory == init + [c];
      forall d | d in init ensures d.id != c.id {
        var i :| 0 <= i < |init| && init[i] == d;
        assert inventory[i] == d;
      }
    }
  }

  lemma ContractsAreDeclared(ops: seq<OperationDecl>, extras: seq<Contract>, x: Contract)
    ensures x in Contracts(ops) + extras <==> IsContract(ops, extras, x)
  {
    ProjectedContracts(ops, x);
  }

  /** The map that the audits run on, in terms of the declarations. */
  ghost predicate Represents(operations: Operations, ops: seq<OperationDecl>, extras: seq<Contract>) {
    && (forall x :: IsContract(ops, extras, x) ==> x.id in operations && operations[x.id] == x)
    && (forall id :: id in operations ==> operations[id].id == id && IsContract(ops, extras, operations[id]))
  }

  lemma Indexed(ops: seq<OperationDecl>, extras: seq<Contract>, inventory: seq<Contract>)
    returns (operations: Operations)
    requires DistinctIds(Contracts(ops) + extras) && multiset(inventory) == multiset(Contracts(ops) + extras)
    ensures IndexesContracts(inventory, operations) && Represents(operations, ops, extras)
  {
    var all := Contracts(ops) + extras;
    operations := ById(all);
    ByIdIndexes(all);
    forall x ensures x in inventory <==> x in all {
      SameElements(inventory, all, x);
    }
    forall x ensures x in all <==> IsContract(ops, extras, x) {
      ContractsAreDeclared(ops, extras, x);
    }
  }

  lemma KnownIff(operations: Operations, ops: seq<OperationDecl>, extras: seq<Contract>, id: string, surface: Surface)
    requires Represents(operations, ops, extras)
    ensures KnownOn(ops, extras, id, surface) <==> id in operations && operations[id].surface == surface
    ensures KnownExact(ops, extras, id) <==> IsExact(id, operations)
  {
    if id in operations {
      assert IsContract(ops, extras, operations[id]);
    }
  }

  // ----- entries

  lemma EntriesIff(ops: seq<OperationDecl>, extras: seq<Contract>, inventory: seq<Contract>)
    requires multiset(inventory) == multiset(Contracts(ops) + extras)
    ensures (forall i :: 0 <= i < |inventory| ==> EntryOk(inventory[i])) <==> EntriesDeclared(ops, extras)
  {
    forall x ensures x in inventory <==> IsContract(ops, extras, x) {
      SameElements(inventory, Contracts(ops) + extras, x);
      ContractsAreDeclared(ops, extras, x);
    }
    if forall i :: 0 <= i < |inventory| ==> EntryOk(inventory[i]) {
      forall x | IsContract(ops, extras, x) ensures EntryOk(x) {
        var i :| 0 <= i < |inventory| && inventory[i] == x;
      }
    }
    if EntriesDeclared(ops, extras) {
      forall i | 0 <= i < |inventory| ensures EntryOk(inventory[i]) {
        assert inventory[i] in inventory;
      }
    }
  }

  // ----- endpoints

  lemma {:induction false} EndpointIsProjected(ops: seq<OperationDecl>, e: Endpoint)
    requires AllProjectable(ops)
    ensures e in Endpoints(ops) <==> exists op :: op in ops && OverHttp(op.surface) && e == EndpointOf(op)
    decreases |ops|
  {
    if ops != [] {
      EndpointIsProjected(ops[1..], e);
      assert ops == [ops[0]] + ops[1..];
    }
  }

  lemma ObligationsProjected(op: OperationDecl, kind: Kind)
    requires OverHttp(op.surface) && Projectable(op)
    ensures EndpointOf(op).obligations.Of(kind) == ObligationOf(op, kind)
  {
  }

  lemma HttpSettledIff(op: OperationDecl)
    requires OverHttp(op.surface) && Projectable(op)
    ensures Settled(EndpointOf(op)) <==> HttpSettled(op)
  {
    var e := EndpointOf(op);
    forall kind: Kind ensures e.obligations.Of(kind) == ObligationOf(op, kind) {
      ObligationsProjected(op, kind);
    }
    forall kind: Kind | e.obligations.Of(kind).ContractOf? ensures Obliged(e, e.obligations.Of(kind).id) {
    }
    forall id ensures id in ObligedIds(e, |KINDS|) <==> Obliged(e, id) {
      ObligedIff(e, id);
    }
    EmptyReferences(e);
  }

  lemma EmptyReferences(e: Endpoint)
    ensures References(e) == [] <==> e.sharedComponents == [] && forall id :: !Obliged(e, id)
  {
    var ids := ObligedIds(e, |KINDS|);
    forall id ensures id in ids <==> Obliged(e, id) {
      ObligedIff(e, id);
    }
    if ids != [] {
      assert ids[0] in ids;
    }
  }

  lemma ObligingIff(ops: seq<OperationDecl>, catalog: seq<Endpoint>, id: string)
    requires AllProjectable(ops) && multiset(catalog) == multiset(Endpoints(ops))
    ensures Obliging(ops, id) <==> exists i: nat :: SurfaceCatalogue.Serves(catalog, i, id)
  {
    if Obliging(ops, id) {
      var op, kind: Kind :|
        op in ops && OverHttp(op.surface) && op.exclusion.None? && ObligationOf(op, kind) == ContractOf(id);
      var e := EndpointOf(op);
      EndpointIsProjected(ops, e);
      SameElements(catalog, Endpoints(ops), e);
      var i: nat :| i < |catalog| && catalog[i] == e;
      ObligationsProjected(op, kind);
      assert SurfaceCatalogue.Serves(catalog, i, id);
    }
    if i: nat :| SurfaceCatalogue.Serves(catalog, i, id) {
      SameElements(catalog, Endpoints(ops), catalog[i]);
      EndpointIsProjected(ops, catalog[i]);
      var op :| op in ops && OverHttp(op.surface) && catalog[i] == EndpointOf(op);
      var kind: Kind :| catalog[i].obligations.Of(kind) == ContractOf(id);
      ObligationsProjected(op, kind);
    }
  }

  lemma AllSettledIff(ops: seq<OperationDecl>, catalog: seq<Endpoint>)
    requires AllProjectable(ops) && multiset(catalog) == multiset(Endpoints(ops))
    ensures (forall i :: 0 <= i < |catalog| ==> Settled(catalog[i])) <==>
            forall op :: op in ops && OverHttp(op.surface) ==> HttpSettled(op)
  {
    forall e ensures e in catalog <==> exists op :: op in ops && OverHttp(op.surface) && e == EndpointOf(op) {
      SameElements(catalog, Endpoints(ops), e);
      EndpointIsProjected(ops, e);
    }
    forall op | op in ops && OverHttp(op.surface)
      ensures EndpointOf(op) in catalog && (Settled(EndpointOf(op)) <==> HttpSettled(op))
    {
      HttpSettledIff(op);
    }
    forall i | 0 <= i < |catalog|
      ensures exists op :: op in ops && OverHttp(op.surface) && catalog[i] == EndpointOf(op)
    {
      assert catalog[i] in catalog;
    }
  }

  // ----- the other surfaces

  lemma {:induction false} OtherIsProjected(ops: seq<OperationDecl>, entry: SurfaceOperation)
    ensures entry in OtherSurfaces(ops) <==> exists op :: op in ops && !OverHttp(op.surface) && entry == SurfaceOf(op)
    decreases |ops|
  {
    if ops != [] {
      OtherIsProjected(ops[1..], entry);
      assert ops == [ops[0]] + ops[1..];
    }
  }

  lemma {:induction false} OwnIdsDistinct(ops: seq<OperationDecl>, op: OperationDecl)
    requires Distinct(DeclaredIds(ops)) && op in ops
    ensures Distinct(DeclIds(op.contracts))
    decreases |ops|
  {
    DistinctBoth(DeclIds(ops[0].contracts), DeclaredIds(ops[1..]));
    if op != ops[0] {
      OwnIdsDistinct(ops[1..], op);
    }
  }

  lemma {:induction false} ExactIdsOf(cs: seq<ContractDecl>)
    ensures forall id :: id in ExactIds(cs) <==> exists c :: c in cs && c.id == id && c.binding == ExactSurface
    ensures forall id :: id in ExactIds(cs) ==> id in DeclIds(cs)
    ensures Distinct(DeclIds(cs)) ==> Distinct(ExactIds(cs))
    decreases |cs|
  {
    if cs != [] {
      ExactIdsOf(cs[1..]);
      assert cs == [cs[0]] + cs[1..];
      DistinctBoth([cs[0].id], DeclIds(cs[1..]));
      DistinctBoth(if cs[0].binding == ExactSurface then [cs[0].id] else [], ExactIds(cs[1..]));
    }
  }

  lemma OwnExactIds(ops: seq<OperationDecl>, extras: seq<Contract>, op: OperationDecl, operations: Operations)
    requires Represents(operations, ops, extras) && Distinct(DeclaredIds(ops)) && op in ops
    ensures Distinct(ExactIds(op.contracts))
    ensures forall id :: id in ExactIds(op.contracts) ==>
            IsExact(id, operations) && operations[id].surface == op.surface
  {
    OwnIdsDistinct(ops, op);
    ExactIdsOf(op.contracts);
    forall id | id in ExactIds(op.contracts) ensures IsExact(id, operations) && operations[id].surface == op.surface {
      var c :| c in op.contracts && c.id == id && c.binding == ExactSurface;
      assert Declares(ops, op, c);
      assert IsContract(ops, extras, ContractIn(op, c));
    }
  }

  lemma OtherSettledIff(ops: seq<OperationDecl>, extras: seq<Contract>, op: OperationDecl, operations: Operations)
    requires Represents(operations, ops, extras) && Distinct(DeclaredIds(ops)) && op in ops
    ensures SurfaceOk(SurfaceOf(op), operations) <==> OtherSettled(op, ops, extras)
  {
    var own, shared := ExactIds(op.contracts), op.sharedComponents;
    OwnExactIds(ops, extras, op, operations);
    DistinctBoth(own, shared);
    forall id ensures KnownOn(ops, extras, id, op.surface) <==> id in operations && operations[id].surface == op.surface
              ensures KnownExact(ops, extras, id) <==> IsExact(id, operations)
    {
      KnownIff(operations, ops, extras, id, op.surface);
    }
    if own != [] {
      assert own[0] in own;
    }
    assert forall id :: id in own + shared <==> id in own || id in shared;
  }

  lemma MaintenanceOkIff(ops: seq<OperationDecl>, extras: seq<Contract>, operations: Operations)
    requires Represents(operations, ops, extras)
    ensures SurfaceOk(MAINTENANCE, operations) <==> MaintenanceKnown(ops, extras)
  {
    KnownIff(operations, ops, extras, MAINTENANCE_ID, Api);
    KeyIsWellFormedIff(Post, MAINTENANCE_PATH);
    NoWildcard();
    OneLink(MAINTENANCE, MAINTENANCE_ID, operations);
  }

  lemma OneLink(entry: SurfaceOperation, id: string, operations: Operations)
    requires entry.contracts == [id]
    ensures LinksOk(entry, operations) <==> IsExact(id, operations) && operations[id].surface == entry.surface
  {
    assert entry.contracts[0] == id;
  }

  lemma NoWildcard()
    ensures !HasWildcard(MAINTENANCE_PATH)
  {
    var a, b, c := "/api/v1/", "maintenance/", "{operation}";
    PartsLack(a, b, c, '*');
    PartsLack(a, b, c, '.');
    NoDots(MAINTENANCE_PATH);
  }

  lemma PartsLack(a: string, b: string, c: string, d: char)
    requires d !in a && d !in b && d !in c
    ensures d !in a + b + c
  {
  }

  lemma {:induction false} NoDots(s: string)
    requires '.' !in s
    ensures !HasDots(s)
  {
    if |s| >= 3 {
      assert s[0] in s;
      NoDots(s[1..]);
    }
  }

  lemma OthersOkIff(ops: seq<OperationDecl>, extras: seq<Contract>, operations: Operations)
    requires Represents(operations, ops, extras) && Distinct(DeclaredIds(ops))
    ensures var rest := OtherEntries(ops);
            (forall j :: 0 <= j < |rest| ==> SurfaceOk(rest[j], operations)) <==>
            && (forall op :: op in ops && !OverHttp(op.surface) ==> OtherSettled(op, ops, extras))
            && MaintenanceKnown(ops, extras)
  {
    var others, rest := OtherSurfaces(ops), OtherEntries(ops);
    MaintenanceOkIff(ops, extras, operations);
    forall e ensures e in others <==> exists op :: op in ops && !OverHttp(op.surface) && e == SurfaceOf(op) {
      OtherIsProjected(ops, e);
    }
    forall op | op in ops && !OverHttp(op.surface)
      ensures SurfaceOf(op) in others && (SurfaceOk(SurfaceOf(op), operations) <==> OtherSettled(op, ops, extras))
    {
      OtherSettledIff(ops, extras, op, operations);
    }
    AllEntriesOk(others, operations);
  }

  lemma AllEntriesOk(others: seq<SurfaceOperation>, operations: Operations)
    ensures var rest := others + [MAINTENANCE];
            (forall j :: 0 <= j < |rest| ==> SurfaceOk(rest[j], operations)) <==>
            (forall e :: e in others ==> SurfaceOk(e, operations)) && SurfaceOk(MAINTENANCE, operations)
  {
    var rest := others + [MAINTENANCE];
    assert forall e :: e in rest <==> e in others || e == MAINTENANCE;
    if forall j :: 0 <= j < |rest| ==> SurfaceOk(rest[j], operations) {
      forall e | e in rest ensures SurfaceOk(e, operations) {
        var j :| 0 <= j < |rest| && rest[j] == e;
      }
    }
    if forall e :: e in rest ==> SurfaceOk(e, operations) {
      forall j | 0 <= j < |rest| ensures SurfaceOk(rest[j], operations) {
        assert rest[j] in rest;
      }
    }
  }

  lemma KeysIff(ops: seq<OperationDecl>, catalog: seq<Endpoint>)
    requires AllProjectable(ops) && multiset(catalog) == multiset(Endpoints(ops))
    ensures UniqueKeys(OtherEntries(ops)) && KeysApart(catalog, OtherEntries(ops)) <==>
            UniqueKeys(OtherSurfaces(ops)) && MaintenanceApart(ops)
  {
    var others, rest := OtherSurfaces(ops), OtherEntries(ops);
    forall j | 0 <= j < |others| ensures rest[j] == others[j] && !OverHttp(others[j].surface) {
      OtherIsProjected(ops, others[j]);
    }
    assert rest[|others|] == MAINTENANCE;
    forall i | 0 <= i < |catalog| ensures OverHttp(catalog[i].surface) {
      SameElements(catalog, Endpoints(ops), catalog[i]);
      EndpointIsProjected(ops, catalog[i]);
    }
    UniqueWithMaintenance(others);
    ApartFromOthers(catalog, others);
    ApartIff(ops, catalog);
  }

  lemma UniqueWithMaintenance(others: seq<SurfaceOperation>)
    requires forall j :: 0 <= j < |others| ==> !OverHttp(others[j].surface)
    ensures UniqueKeys(others + [MAINTENANCE]) <==> UniqueKeys(others)
  {
    var rest := others + [MAINTENANCE];
    assert forall j :: 0 <= j < |others| ==> rest[j] == others[j];
  }

  /** An endpoint's key is that of the maintenance entry. */
  ghost predicate SharesMaintenanceKey(e: Endpoint) {
    (e.surface, OperationKey(e.verb, e.path)) == (MAINTENANCE.surface, MAINTENANCE.key)
  }

  lemma ApartFromOthers(catalog: seq<Endpoint>, others: seq<SurfaceOperation>)
    requires forall j :: 0 <= j < |others| ==> !OverHttp(others[j].surface)
    requires forall i :: 0 <= i < |catalog| ==> OverHttp(catalog[i].surface)
    ensures KeysApart(catalog, others + [MAINTENANCE]) <==>
            forall i :: 0 <= i < |catalog| ==> !SharesMaintenanceKey(catalog[i])
  {
    var rest := others + [MAINTENANCE];
    assert rest[|others|] == MAINTENANCE;
    assert forall j :: 0 <= j < |others| ==> rest[j] == others[j];
  }

  lemma ApartIff(ops: seq<OperationDecl>, catalog: seq<Endpoint>)
    requires AllProjectable(ops) && multiset(catalog) == multiset(Endpoints(ops))
    ensures (forall i :: 0 <= i < |catalog| ==> !SharesMaintenanceKey(catalog[i])) <==> MaintenanceApart(ops)
  {
    forall op | op in ops && OverHttp(op.surface)
      ensures EndpointOf(op) in catalog
      ensures SharesMaintenanceKey(EndpointOf(op)) <==>
              op.surface == Api && op.verb == Some(Post) && op.path == Some(MAINTENANCE_PATH)
    {
      var e := EndpointOf(op);
      EndpointIsProjected(ops, e);
      SameElements(catalog, Endpoints(ops), e);
      if SharesMaintenanceKey(e) {
        OperationKeyIsInjective(e.verb, e.path, Post, MAINTENANCE_PATH);
      }
    }
    forall i | 0 <= i < |catalog|
      ensures exists op :: op in ops && OverHttp(op.surface) && catalog[i] == EndpointOf(op)
    {
      SameElements(catalog, Endpoints(ops), catalog[i]);
      EndpointIsProjected(ops, catalog[i]);
    }
  }

  // ----- owners

  lemma OwnerIff(ops: seq<OperationDecl>, extras: seq<Contract>, catalog: seq<Endpoint>, operations: Operations,
                 x: Contract)
    requires AllProjectable(ops) && multiset(catalog) == multiset(Endpoints(ops)) && Represents(operations, ops, extras)
    requires IsContract(ops, extras, x) && x.binding == ExactSurface && TransportOk(x)
    ensures Placed(x.id, catalog, OtherEntries(ops), operations) <==> OwnerDeclared(x, ops)
  {
    ObligingIff(ops, catalog, x.id);
    assert operations[x.id] == x;
  }

  lemma OwnersIff(ops: seq<OperationDecl>, extras: seq<Contract>, catalog: seq<Endpoint>, operations: Operations)
    requires AllProjectable(ops) && multiset(catalog) == multiset(Endpoints(ops)) && Represents(operations, ops, extras)
    requires forall x :: IsContract(ops, extras, x) ==> TransportOk(x)
    ensures (forall id :: IsExact(id, operations) ==> Placed(id, catalog, OtherEntries(ops), operations)) <==>
            forall x :: IsContract(ops, extras, x) && x.binding == ExactSurface ==> OwnerDeclared(x, ops)
  {
    forall x | IsContract(ops, extras, x) && x.binding == ExactSurface
      ensures IsExact(x.id, operations)
      ensures Placed(x.id, catalog, OtherEntries(ops), operations) <==> OwnerDeclared(x, ops)
    {
      OwnerIff(ops, extras, catalog, operations, x);
    }
    forall id | IsExact(id, operations)
      ensures IsContract(ops, extras, operations[id]) && operations[id].id == id
              && operations[id].binding == ExactSurface
    {
    }
  }

  /** The audit of the surfaces, for a catalogue whose topology is accepted. */
  lemma SurfacesIff(ops: seq<OperationDecl>, extras: seq<Contract>, catalog: seq<Endpoint>, inventory: seq<Contract>,
                    operations: Operations)
    requires AllProjectable(ops) && multiset(catalog) == multiset(Endpoints(ops))
    requires TopologyOk(catalog, inventory) && IndexesContracts(inventory, operations)
    requires Represents(operations, ops, extras) && Distinct(DeclaredIds(ops))
    ensures SurfacesOk(Entries(catalog, ops), operations) <==> SurfacesDeclared(ops, extras)
  {
    assert Entries(catalog, ops) == EndpointEntries(catalog) + OtherEntries(ops);
    SurfaceAuditSplits(catalog, OtherEntries(ops), inventory, operations);
    AllSettledIff(ops, catalog);
    OthersOkIff(ops, extras, operations);
    KeysIff(ops, catalog);
    forall x | IsContract(ops, extras, x) ensures TransportOk(x) {
      assert operations[x.id] in inventory;
      var i :| 0 <= i < |inventory| && inventory[i] == x;
    }
    OwnersIff(ops, extras, catalog, operations);
    SettledSplits(ops, extras);
  }

  lemma SettledSplits(ops: seq<OperationDecl>, extras: seq<Contract>)
    requires AllProjectable(ops)
    ensures (forall op :: op in ops ==>
            if OverHttp(op.surface) then HttpSettled(op) else OtherSettled(op, ops, extras)) <==>
            && (forall op :: op in ops && OverHttp(op.surface) ==> HttpSettled(op))
            && (forall op :: op in ops && !OverHttp(op.surface) ==> OtherSettled(op, ops, extras))
  {
  }

  // ----- shared components

  function EntryFor(op: OperationDecl): SurfaceOperation
    requires Projectable(op)
  {
    if OverHttp(op.surface) then EntryOf(EndpointOf(op)) else SurfaceOf(op)
  }

  lemma EntriesAreOfOperations(ops: seq<OperationDecl>, catalog: seq<Endpoint>, entry: SurfaceOperation)
    requires AllProjectable(ops) && multiset(catalog) == multiset(Endpoints(ops))
    ensures entry in Entries(catalog, ops) <==> entry == MAINTENANCE || exists op :: op in ops && entry == EntryFor(op)
  {
    OtherIsProjected(ops, entry);
    assert entry in Entries(catalog, ops) <==>
           entry in EndpointEntries(catalog) || entry in OtherSurfaces(ops) || entry == MAINTENANCE;
    EndpointEntryIff(ops, catalog, entry);
  }

  lemma EndpointEntryIff(ops: seq<OperationDecl>, catalog: seq<Endpoint>, entry: SurfaceOperation)
    requires AllProjectable(ops) && multiset(catalog) == multiset(Endpoints(ops))
    ensures entry in EndpointEntries(catalog) <==>
            exists op :: op in ops && OverHttp(op.surface) && entry == EntryOf(EndpointOf(op))
  {
    if entry in EndpointEntries(catalog) {
      var i :| 0 <= i < |catalog| && EndpointEntries(catalog)[i] == entry;
      SameElements(catalog, Endpoints(ops), catalog[i]);
      EndpointIsProjected(ops, catalog[i]);
    }
    if op :| op in ops && OverHttp(op.surface) && entry == EntryOf(EndpointOf(op)) {
      EndpointIsProjected(ops, EndpointOf(op));
      SameElements(catalog, Endpoints(ops), EndpointOf(op));
      var i :| 0 <= i < |catalog| && catalog[i] == EndpointOf(op);
      assert EndpointEntries(catalog)[i] == entry;
    }
  }

  /** A shared component stands in the entry of an operation exactly when the operation lists it. */
  lemma SharedLinkIff(ops: seq<OperationDecl>, extras: seq<Contract>, catalog: seq<Endpoint>, inventory: seq<Contract>,
                      operations: Operations, op: OperationDecl, id: string)
    requires AllProjectable(ops) && multiset(catalog) == multiset(Endpoints(ops))
    requires TopologyOk(catalog, inventory) && IndexesContracts(inventory, operations)
    requires Represents(operations, ops, extras) && Distinct(DeclaredIds(ops))
    requires op in ops && id in operations && operations[id].binding == SharedComponent
    ensures id in EntryFor(op).contracts <==> id in op.sharedComponents
  {
    if OverHttp(op.surface) {
      var e := EndpointOf(op);
      EndpointIsProjected(ops, e);
      SameElements(catalog, Endpoints(ops), e);
      var i :| 0 <= i < |catalog| && catalog[i] == e;
      ObligedIff(e, id);
      if id in References(e) {
        ReferencesFit(e, id, inventory, operations);
      }
    } else {
      OwnExactIds(ops, extras, op, operations);
    }
  }

  lemma SharedIff(ops: seq<OperationDecl>, extras: seq<Contract>, catalog: seq<Endpoint>, inventory: seq<Contract>,
                  operations: Operations)
    requires AllProjectable(ops) && multiset(catalog) == multiset(Endpoints(ops))
    requires TopologyOk(catalog, inventory) && IndexesContracts(inventory, operations)
    requires Represents(operations, ops, extras) && Distinct(DeclaredIds(ops)) && MaintenanceKnown(ops, extras)
    ensures SharedAuditPasses(Entries(catalog, ops), operations) <==> SharedDeclared(ops, extras)
  {
    var entries := Entries(catalog, ops);
    forall x | IsContract(ops, extras, x) && x.binding == SharedComponent
      ensures x.id in LinkedShared(entries, operations) <==>
              exists op :: op in ops && op.surface == x.surface && x.id in op.sharedComponents
    {
      SharedOneIff(ops, extras, catalog, inventory, operations, x);
    }
    PassesIff(entries, operations);
    forall id | id in ExpectedShared(operations)
      ensures IsContract(ops, extras, operations[id]) && operations[id].id == id
              && operations[id].binding == SharedComponent
    {
    }
  }

  lemma PassesIff(entries: seq<SurfaceOperation>, operations: Operations)
    ensures SharedAuditPasses(entries, operations) <==>
            forall id :: id in ExpectedShared(operations) ==> id in LinkedShared(entries, operations)
  {
    assert LinkedShared(entries, operations) <= ExpectedShared(operations);
  }

  lemma SharedOneIff(ops: seq<OperationDecl>, extras: seq<Contract>, catalog: seq<Endpoint>, inventory: seq<Contract>,
                     operations: Operations, x: Contract)
    requires AllProjectable(ops) && multiset(catalog) == multiset(Endpoints(ops))
    requires TopologyOk(catalog, inventory) && IndexesContracts(inventory, operations)
    requires Represents(operations, ops, extras) && Distinct(DeclaredIds(ops)) && MaintenanceKnown(ops, extras)
    requires IsContract(ops, extras, x) && x.binding == SharedComponent
    ensures x.id in LinkedShared(Entries(catalog, ops), operations) <==>
            exists op :: op in ops && op.surface == x.surface && x.id in op.sharedComponents
  {
    var entries := Entries(catalog, ops);
    KnownIff(operations, ops, extras, MAINTENANCE_ID, Api);
    if x.id in LinkedShared(entries, operations) {
      var i :| 0 <= i < |entries| && x.id in entries[i].contracts && x.surface == entries[i].surface;
      EntriesAreOfOperations(ops, catalog, entries[i]);
      assert entries[i] != MAINTENANCE;
      var op :| op in ops && entries[i] == EntryFor(op);
      SharedLinkIff(ops, extras, catalog, inventory, operations, op, x.id);
    }
    if op :| op in ops && op.surface == x.surface && x.id in op.sharedComponents {
      EntriesAreOfOperations(ops, catalog, EntryFor(op));
      SharedLinkIff(ops, extras, catalog, inventory, operations, op, x.id);
      var i :| 0 <= i < |entries| && entries[i] == EntryFor(op);
    }
  }
}
