/** The Web selection: which endpoints and contracts of the catalogue the Web output is generated from. */
module Selection {
  import opened Wrappers
  import opened Catalogue
  import opened Topology
  import opened InventoryAudit
  import opened SchemaRegistry
  import opened Permutations

  datatype SelectionFile = SelectionFile(version: nat, operations: seq<string>, extraContracts: seq<string>)

  datatype SelectionError =
    | InvalidCatalogue | UnsupportedVersion | BlankOrRepeated | UnknownOperation | ExcludedOperation | OpenObligation
    | UnknownExtra | MissingRoot

  datatype Resolved = Resolved(endpoints: seq<Endpoint>, contracts: seq<Contract>, roots: seq<Root>)

  // ----- what a selection asks for

  ghost predicate Named(e: Endpoint, id: string) {
    Obliged(e, id) || id in e.sharedComponents
  }

  /** The ids that a selection needs: those named by its operations, and the extra ones. */
  ghost predicate Needed(id: string, catalog: seq<Endpoint>, operations: set<string>, extras: set<string>) {
    id in extras || exists i :: 0 <= i < |catalog| && catalog[i].operationId in operations && Named(catalog[i], id)
  }

  function FilterContracts(inventory: seq<Contract>, ids: set<string>): seq<Contract> {
    if inventory == [] then []
    else (if inventory[0].id in ids then [inventory[0]] else []) + FilterContracts(inventory[1..], ids)
  }

  function FilterEndpoints(catalog: seq<Endpoint>, ids: set<string>): seq<Endpoint> {
    if catalog == [] then []
    else (if catalog[0].operationId in ids then [catalog[0]] else []) + FilterEndpoints(catalog[1..], ids)
  }

  function Elements(s: seq<string>): set<string> {
    set x | x in s
  }

  predicate ListOk(ids: seq<string>) {
    && (forall i :: 0 <= i < |ids| ==> !IsBlank(ids[i]))
    && Distinct(ids)
  }

  /** An operation can be selected: it is known, not excluded, and nothing of it is still to do. */
  ghost predicate Selectable(id: string, catalog: seq<Endpoint>) {
    exists i :: 0 <= i < |catalog| && catalog[i].operationId == id && catalog[i].exclusion.None? &&
                forall kind: Kind :: catalog[i].obligations.Of(kind) != Todo
  }

  ghost predicate Known(id: string, inventory: seq<Contract>) {
    exists i :: 0 <= i < |inventory| && inventory[i].id == id
  }

  /** The roots of the schemas of some contracts. */
  function SelectedRoots(registry: seq<Root>, contracts: seq<Contract>): seq<Root> {
    if registry == [] then []
    else (if HasSchema(contracts, registry[0].id) then [registry[0]] else []) + SelectedRoots(registry[1..], contracts)
  }

  predicate HasSchema(contracts: seq<Contract>, schemaId: string) {
    exists i :: 0 <= i < |contracts| && contracts[i].schemaId == Some(schemaId)
  }

  predicate Rooted(c: Contract, roots: seq<Root>) {
    c.schemaId.Some? ==> exists j :: 0 <= j < |roots| && roots[j].id == c.schemaId.value
  }

  predicate AllRooted(contracts: seq<Contract>, roots: seq<Root>) {
    forall i :: 0 <= i < |contracts| ==> Rooted(contracts[i], roots)
  }

  ghost function NeededIds(catalog: seq<Endpoint>, inventory: seq<Contract>, operations: set<string>,
                           extras: set<string>): set<string>
  {
    set id | id in AllIds(inventory) && Needed(id, catalog, operations, extras)
  }

  /** The contracts of a selection. */
  ghost function NeededContracts(catalog: seq<Endpoint>, inventory: seq<Contract>, operations: set<string>,
                                 extras: set<string>)
    : seq<Contract>
  {
    FilterContracts(inventory, NeededIds(catalog, inventory, operations, extras))
  }

  function AllIds(inventory: seq<Contract>): set<string> {
    set c | c in inventory :: c.id
  }

  /** The selection file fits a catalogue. */
  ghost predicate FileFits(file: SelectionFile, catalog: seq<Endpoint>, inventory: seq<Contract>) {
    && file.version == 1
    && ListOk(file.operations) && ListOk(file.extraContracts)
    && (forall id :: id in file.operations ==> Selectable(id, catalog))
    && (forall id :: id in file.extraContracts ==> Known(id, inventory))
  }

  /** The contracts that the file selects. */
  ghost function Chosen(file: SelectionFile, catalog: seq<Endpoint>, inventory: seq<Contract>): seq<Contract> {
    NeededContracts(catalog, inventory, Elements(file.operations), Elements(file.extraContracts))
  }

  /** What a selection resolves to. */
  ghost function Selected(file: SelectionFile, catalog: seq<Endpoint>, inventory: seq<Contract>,
                          registry: seq<Root>): Resolved
  {
    var contracts := Chosen(file, catalog, inventory);
    Resolved(FilterEndpoints(catalog, Elements(file.operations)), contracts, SelectedRoots(registry, contracts))
  }

  // ----- the program

  /** `endpoint_contract_ids`. */
  method EndpointContractIds(e: Endpoint) returns (ids: seq<string>)
    ensures forall id :: id in ids <==> Named(e, id)
    ensures Distinct(ids)
  {
    ids := [];
    for i := 0 to |KINDS|
      invariant forall id :: id in ids <==> exists j :: 0 <= j < i && e.obligations.Of(KINDS[j]) == ContractOf(id)
      invariant forall m, n :: 0 <= m < n < |ids| ==> ids[m] != ids[n]
    {
      var obligation := e.obligations.Of(KINDS[i]);
      if obligation.ContractOf? && obligation.id !in ids {
        ids := ids + [obligation.id];
      }
    }
    forall id ensures id in ids <==> Obliged(e, id) {
      if Obliged(e, id) {
        var kind: Kind :| e.obligations.Of(kind) == ContractOf(id);
        AllKinds(kind);
      }
    }
    var links := e.sharedComponents;
    for i := 0 to |links|
      invariant forall id :: id in ids <==> Obliged(e, id) || id in links[..i]
      invariant forall m, n :: 0 <= m < n < |ids| ==> ids[m] != ids[n]
    {
      if links[i] !in ids {
        ids := ids + [links[i]];
      }
    }
    assert links[..|links|] == links;
  }

  /** The checks on one list of ids, which also collect it into a set. */
  method CollectIds(ids: seq<string>) returns (r: Result<set<string>, SelectionError>)
    ensures r.Ok? <==> ListOk(ids)
    ensures r.Err? ==> r.error == BlankOrRepeated
    ensures r.Ok? ==> r.value == Elements(ids)
  {
    var seen: set<string> := {};
    for i := 0 to |ids|
      invariant ListOk(ids[..i]) && seen == Elements(ids[..i])
    {
      if IsBlank(ids[i]) || ids[i] in seen {
        assert ids[i] in ids[..i] || IsBlank(ids[i]);
        return Err(BlankOrRepeated);
      }
      assert ids[..i + 1] == ids[..i] + [ids[i]];
      seen := seen + {ids[i]};
    }
    assert ids[..|ids|] == ids;
    return Ok(seen);
  }

  ghost predicate IndexesEndpoints(catalog: seq<Endpoint>, byId: map<string, Endpoint>) {
    && (forall e :: e in catalog ==> e.operationId in byId && byId[e.operationId] == e)
    && (forall id :: id in byId ==> byId[id] in catalog && byId[id].operationId == id)
  }

  /** The endpoints by id. */
  method IndexEndpoints(catalog: seq<Endpoint>) returns (byId: map<string, Endpoint>)
    requires DistinctEndpoints(catalog)
    ensures IndexesEndpoints(catalog, byId)
  {
    byId := map[];
    for i := 0 to |catalog|
      invariant IndexesEndpoints(catalog[..i], byId)
    {
      var e := catalog[i];
      assert catalog[..i + 1] == catalog[..i] + [e];
      forall f | f in catalog[..i] ensures f.operationId != e.operationId {
        var j :| 0 <= j < i && catalog[j] == f;
      }
      byId := byId[e.operationId := e];
    }
    assert catalog[..|catalog|] == catalog;
  }

  lemma SelectableByIndex(id: string, catalog: seq<Endpoint>, byId: map<string, Endpoint>)
    requires IndexesEndpoints(catalog, byId)
    ensures Selectable(id, catalog) <==>
            id in byId && byId[id].exclusion.None? && forall kind: Kind :: byId[id].obligations.Of(kind) != Todo
  {
    if id in byId {
      var i :| 0 <= i < |catalog| && catalog[i] == byId[id];
    }
    forall i | 0 <= i < |catalog| && catalog[i].operationId == id ensures id in byId && byId[id] == catalog[i] {
      assert catalog[i] in catalog;
    }
  }

  /** Whether no obligation of an endpoint is still to do. */
  method NothingToDo(e: Endpoint) returns (ok: bool)
    ensures ok <==> forall kind: Kind :: e.obligations.Of(kind) != Todo
  {
    for i := 0 to |KINDS|
      invariant forall j :: 0 <= j < i ==> e.obligations.Of(KINDS[j]) != Todo
    {
      if e.obligations.Of(KINDS[i]).Todo? {
        return false;
      }
    }
    forall kind: Kind ensures e.obligations.Of(kind) != Todo {
      AllKinds(kind);
    }
    return true;
  }

  /** The loop over the selected operations that refuses what cannot be selected. */
  method CheckOperations(ids: set<string>, catalog: seq<Endpoint>, byId: map<string, Endpoint>)
    returns (r: Result<(), SelectionError>)
    requires IndexesEndpoints(catalog, byId)
    ensures r.Ok? <==> forall id :: id in ids ==> Selectable(id, catalog)
    ensures r != Err(MissingRoot)
  {
    var rest := ids;
    while rest != {}
      invariant rest <= ids && forall id :: id in ids - rest ==> Selectable(id, catalog)
      decreases rest
    {
      var id :| id in rest;
      SelectableByIndex(id, catalog, byId);
      if id !in byId {
        return Err(UnknownOperation);
      }
      if byId[id].exclusion.Some? {
        return Err(ExcludedOperation);
      }
      var done := NothingToDo(byId[id]);
      if !done {
        return Err(OpenObligation);
      }
      rest := rest - {id};
    }
    return Ok(());
  }

  ghost predicate NamedBySome(id: string, operations: set<string>, byId: map<string, Endpoint>) {
    exists op :: op in operations && op in byId && Named(byId[op], id)
  }

  /** The loop that collects the contract ids of the selected operations. */
  method CollectNamed(ids: set<string>, byId: map<string, Endpoint>) returns (named: set<string>)
    requires ids <= byId.Keys
    ensures forall id :: id in named <==> NamedBySome(id, ids, byId)
  {
    named := {};
    var rest := ids;
    while rest != {}
      invariant rest <= ids
      invariant forall id :: id in named <==> NamedBySome(id, ids - rest, byId)
      decreases rest
    {
      var op :| op in rest;
      var contractIds := EndpointContractIds(byId[op]);
      ghost var done := ids - rest;
      assert ids - (rest - {op}) == done + {op};
      forall id ensures NamedBySome(id, done + {op}, byId) <==> NamedBySome(id, done, byId) || id in contractIds {
        if id in contractIds {
          assert Named(byId[op], id);
        }
      }
      named := named + set id | id in contractIds;
      rest := rest - {op};
    }
    assert ids - rest == ids;
  }

  lemma NeededByIndex(id: string, catalog: seq<Endpoint>, byId: map<string, Endpoint>, operations: set<string>,
                      extras: set<string>)
    requires IndexesEndpoints(catalog, byId)
    ensures Needed(id, catalog, operations, extras) <==> id in extras || NamedBySome(id, operations, byId)
  {
    if NamedBySome(id, operations, byId) {
      var op :| op in operations && op in byId && Named(byId[op], id);
      var i :| 0 <= i < |catalog| && catalog[i] == byId[op];
    }
    forall i | 0 <= i < |catalog| && catalog[i].operationId in operations && Named(catalog[i], id)
      ensures NamedBySome(id, operations, byId)
    {
      assert catalog[i] in catalog;
    }
  }

  lemma {:induction false} FilterAgrees(inventory: seq<Contract>, a: set<string>, b: set<string>)
    requires forall c :: c in inventory ==> (c.id in a <==> c.id in b)
    ensures FilterContracts(inventory, a) == FilterContracts(inventory, b)
    decreases |inventory|
  {
    if inventory != [] {
      FilterAgrees(inventory[1..], a, b);
    }
  }

  /** `resolve_selection`, given the parsed selection file.  After the audit no schema can be without a root. */
  method ResolveSelection(file: SelectionFile, catalog: seq<Endpoint>, inventory: seq<Contract>,
                          ops: seq<OperationDecl>, registry: seq<Root>)
    returns (r: Result<Resolved, SelectionError>)
    ensures r.Ok? <==> InventoryPasses(catalog, inventory, ops, registry) && FileFits(file, catalog, inventory)
    ensures r.Ok? ==> r.value == Selected(file, catalog, inventory, registry)
    ensures r.Ok? ==> forall e :: e in r.value.endpoints <==> e in catalog && e.operationId in file.operations
    ensures r != Err(MissingRoot)
  {
    var audited := AuditInventory(catalog, inventory, ops, registry);
    if audited.Err? {
      return Err(InvalidCatalogue);
    }
    r := ResolveFile(file, catalog, inventory, registry);
    ChosenAreRooted(file, catalog, inventory, ops, registry);
    if r.Ok? {
      SelectedEndpointsAreListed(file, catalog, inventory, registry);
    }
  }

  lemma {:induction false} SelectedRootsKept(registry: seq<Root>, contracts: seq<Contract>, schemaId: string)
    requires HasSchema(contracts, schemaId)
    ensures FindRoot(SelectedRoots(registry, contracts), schemaId) == FindRoot(registry, schemaId)
    decreases |registry|
  {
    if registry != [] {
      var rest := SelectedRoots(registry[1..], contracts);
      SelectedRootsKept(registry[1..], contracts, schemaId);
      if HasSchema(contracts, registry[0].id) {
        assert ([registry[0]] + rest)[1..] == rest;
      } else {
        assert [] + rest == rest;
      }
    }
  }

  lemma ChosenAreKnown(file: SelectionFile, catalog: seq<Endpoint>, inventory: seq<Contract>, c: Contract)
    requires c in Chosen(file, catalog, inventory)
    ensures c in inventory && forall id :: c.schemaId == Some(id) ==> HasSchema(Chosen(file, catalog, inventory), id)
  {
    var operations, extras := Elements(file.operations), Elements(file.extraContracts);
    FilteredMembers(inventory, NeededIds(catalog, inventory, operations, extras), c);
  }

  /** Every selected contract with a schema finds its own root among the selected ones. */
  lemma ChosenAreRooted(file: SelectionFile, catalog: seq<Endpoint>, inventory: seq<Contract>, ops: seq<OperationDecl>,
                        registry: seq<Root>)
    requires InventoryPasses(catalog, inventory, ops, registry)
    ensures var contracts := Chosen(file, catalog, inventory);
            var roots := SelectedRoots(registry, contracts);
            && AllRooted(contracts, roots)
            && forall c :: c in contracts && c.schemaId.Some? ==>
                 var found := FindRoot(roots, c.schemaId.value);
                 found.Some? && found.value.contractId == c.id && Matches(found.value, c)
  {
    var contracts := Chosen(file, catalog, inventory);
    var roots := SelectedRoots(registry, contracts);
    var ids := NeededIds(catalog, inventory, Elements(file.operations), Elements(file.extraContracts));
    forall c | c in contracts && c.schemaId.Some?
      ensures Rooted(c, roots)
      ensures var found := FindRoot(roots, c.schemaId.value);
              found.Some? && found.value.contractId == c.id && Matches(found.value, c)
    {
      FilteredMembers(inventory, ids, c);
      EverySchemaHasItsRoot(catalog, inventory, ops, registry, c);
      SelectedRootsKept(registry, contracts, c.schemaId.value);
    }
  }

  /** The rest of `resolve_selection`, after the audit. */
  method ResolveFile(file: SelectionFile, catalog: seq<Endpoint>, inventory: seq<Contract>, registry: seq<Root>)
    returns (r: Result<Resolved, SelectionError>)
    requires TopologyOk(catalog, inventory)
    ensures r.Ok? <==>
              && FileFits(file, catalog, inventory)
              && AllRooted(Chosen(file, catalog, inventory), SelectedRoots(registry, Chosen(file, catalog, inventory)))
    ensures r.Ok? ==> r.value == Selected(file, catalog, inventory, registry)
    ensures r == Err(MissingRoot) ==>
              !AllRooted(Chosen(file, catalog, inventory), SelectedRoots(registry, Chosen(file, catalog, inventory)))
  {
    if file.version != 1 {
      return Err(UnsupportedVersion);
    }
    var operations := CollectIds(file.operations);
    if operations.Err? {
      return Err(operations.error);
    }
    var extras := CollectIds(file.extraContracts);
    if extras.Err? {
      return Err(extras.error);
    }
    var byId := IndexEndpoints(catalog);
    var checked := CheckOperations(operations.value, catalog, byId);
    if checked.Err? {
      return Err(checked.error);
    }
    forall id | id in operations.value ensures id in byId {
      SelectableByIndex(id, catalog, byId);
    }
    var named := CollectNamed(operations.value, byId);
    if exists id :: id in extras.value && id !in AllIds(inventory) {
      UnknownExtraRefused(file, inventory);
      return Err(UnknownExtra);
    }
    KnownExtras(file, inventory);
    var contracts := FilterContracts(inventory, named + extras.value);
    forall id ensures id in named + extras.value <==> Needed(id, catalog, operations.value, extras.value) {
      NeededByIndex(id, catalog, byId, operations.value, extras.value);
    }
    FilterAgrees(inventory, named + extras.value, NeededIds(catalog, inventory, operations.value, extras.value));
    var roots := SelectedRoots(registry, contracts);
    if !AllRooted(contracts, roots) {
      return Err(MissingRoot);
    }
    return Ok(Resolved(FilterEndpoints(catalog, operations.value), contracts, roots));
  }

  lemma UnknownExtraRefused(file: SelectionFile, inventory: seq<Contract>)
    requires exists id :: id in Elements(file.extraContracts) && id !in AllIds(inventory)
    ensures !(forall id :: id in file.extraContracts ==> Known(id, inventory))
  {
    var id :| id in Elements(file.extraContracts) && id !in AllIds(inventory);
    assert id in file.extraContracts && !Known(id, inventory);
  }

  lemma KnownExtras(file: SelectionFile, inventory: seq<Contract>)
    requires !exists id :: id in Elements(file.extraContracts) && id !in AllIds(inventory)
    ensures forall id :: id in file.extraContracts ==> Known(id, inventory)
  {
    forall id | id in file.extraContracts ensures Known(id, inventory) {
      assert id in Elements(file.extraContracts);
      var c :| c in inventory && c.id == id;
    }
  }

  // ----- closure

  lemma {:induction false} FilteredMembers(inventory: seq<Contract>, ids: set<string>, c: Contract)
    ensures c in FilterContracts(inventory, ids) <==> c in inventory && c.id in ids
    decreases |inventory|
  {
    if inventory != [] {
      FilteredMembers(inventory[1..], ids, c);
    }
  }

  lemma {:induction false} FilteredDistinct(inventory: seq<Contract>, ids: set<string>)
    requires DistinctIds(inventory)
    ensures DistinctIds(FilterContracts(inventory, ids))
    decreases |inventory|
  {
    if inventory != [] {
      var rest := FilterContracts(inventory[1..], ids);
      FilteredDistinct(inventory[1..], ids);
      forall i | 0 <= i < |rest| ensures rest[i].id != inventory[0].id {
        FilteredMembers(inventory[1..], ids, rest[i]);
      }
    }
  }

  /** What an accepted catalogue names, it declares. */
  lemma NamedIsKnown(id: string, e: Endpoint, catalog: seq<Endpoint>, inventory: seq<Contract>)
    requires TopologyOk(catalog, inventory) && e in catalog && Named(e, id)
    ensures exists c :: c in inventory && c.id == id
  {
    assert EndpointOk(e, inventory);
    if id in e.sharedComponents {
      var i :| 0 <= i < |e.sharedComponents| && e.sharedComponents[i] == id;
      assert LinkKnown(e.sharedComponents[i], e.surface, inventory);
    } else {
      var kind: Kind :| e.obligations.Of(kind) == ContractOf(id);
      assert ObligationOk(e, kind, inventory);
    }
  }

  /** The elements of `part` stand in the order in which they stand in `whole`. */
  ghost predicate InOrderOf<T>(part: seq<T>, whole: seq<T>) {
    forall i, j, p, q | 0 <= i < j < |part| && 0 <= p < |whole| && 0 <= q < |whole| ::
      part[i] == whole[p] && part[j] == whole[q] ==> p < q
  }

  lemma {:induction false} FilteredInOrder(inventory: seq<Contract>, ids: set<string>)
    requires DistinctIds(inventory)
    ensures InOrderOf(FilterContracts(inventory, ids), inventory)
    decreases |inventory|
  {
    if inventory != [] {
      var rest := inventory[1..];
      FilteredInOrder(rest, ids);
      forall c ensures c in FilterContracts(rest, ids) <==> c in rest && c.id in ids {
        FilteredMembers(rest, ids, c);
      }
      ExtendedInOrder(FilterContracts(rest, ids), inventory[0], rest, inventory[0].id in ids);
      assert [inventory[0]] + rest == inventory;
    }
  }

  lemma ExtendedInOrder<T>(part: seq<T>, c: T, rest: seq<T>, chosen: bool)
    requires InOrderOf(part, rest) && c !in rest && forall d :: d in part ==> d in rest
    ensures InOrderOf((if chosen then [c] else []) + part, [c] + rest)
  {
    var n, whole := if chosen then 1 else 0, [c] + rest;
    var all := (if chosen then [c] else []) + part;
    forall i, j, p, q |
      0 <= i < j < |all| && 0 <= p < |whole| && 0 <= q < |whole| && all[i] == whole[p] && all[j] == whole[q]
      ensures p < q
    {
      assert all[j] == part[j - n] && whole[q] == rest[q - 1];
      if i >= n {
        assert all[i] == part[i - n] && whole[p] == rest[p - 1];
      }
    }
  }

  /** The selected contracts are exactly the needed ones: every id that a selected operation names, and every
      extra one, once each, in the order of the inventory, and nothing else. */
  lemma SelectionIsClosed(file: SelectionFile, catalog: seq<Endpoint>, inventory: seq<Contract>, id: string)
    requires TopologyOk(catalog, inventory) && FileFits(file, catalog, inventory)
    ensures var contracts := Chosen(file, catalog, inventory);
            && (id in AllIds(contracts) <==>
              Needed(id, catalog, Elements(file.operations), Elements(file.extraContracts)))
            && DistinctIds(contracts) && InOrderOf(contracts, inventory)
            && forall c :: c in contracts ==> c in inventory
  {
    var operations, extras := Elements(file.operations), Elements(file.extraContracts);
    var ids := NeededIds(catalog, inventory, operations, extras);
    FilteredDistinct(inventory, ids);
    FilteredInOrder(inventory, ids);
    forall c ensures c in FilterContracts(inventory, ids) <==> c in inventory && c.id in ids {
      FilteredMembers(inventory, ids, c);
    }
    if Needed(id, catalog, operations, extras) {
      if id in extras {
        assert Known(id, inventory);
      } else {
        var i :| 0 <= i < |catalog| && catalog[i].operationId in operations && Named(catalog[i], id);
        NamedIsKnown(id, catalog[i], catalog, inventory);
      }
      var c :| c in inventory && c.id == id;
      assert c.id in AllIds(inventory);
      assert c in FilterContracts(inventory, ids);
    }
  }

  lemma {:induction false} FilteredEndpoints(catalog: seq<Endpoint>, ids: set<string>)
    requires forall i, j :: 0 <= i < j < |catalog| ==> catalog[i].operationId != catalog[j].operationId
    ensures forall e :: e in FilterEndpoints(catalog, ids) <==> e in catalog && e.operationId in ids
    ensures InOrderOf(FilterEndpoints(catalog, ids), catalog)
    decreases |catalog|
  {
    if catalog != [] {
      var rest := catalog[1..];
      FilteredEndpoints(rest, ids);
      assert [catalog[0]] + rest == catalog;
      forall e | e in rest ensures e != catalog[0] {
        var i :| 0 <= i < |rest| && rest[i] == e;
        assert catalog[i + 1] == e;
      }
      ExtendedInOrder(FilterEndpoints(rest, ids), catalog[0], rest, catalog[0].operationId in ids);
    }
  }

  /** None of the six obligations is still to do. */
  predicate NothingOpen(o: Obligations) {
    o.path != Todo && o.query != Todo && o.headers != Todo && o.body != Todo && o.success != Todo && o.sse != Todo
  }

  /** The resolved endpoints are exactly those whose operation id the file lists, in catalogue order: every listed
      id has its endpoint, and no other endpoint has that id. */
  lemma SelectedEndpointsAreListed(file: SelectionFile, catalog: seq<Endpoint>, inventory: seq<Contract>,
                                   registry: seq<Root>)
    requires TopologyOk(catalog, inventory) && FileFits(file, catalog, inventory)
    ensures var endpoints := Selected(file, catalog, inventory, registry).endpoints;
            && (forall e :: e in endpoints <==> e in catalog && e.operationId in file.operations)
            && (forall id :: id in file.operations ==> exists e :: e in endpoints && e.operationId == id)
            && (forall e, f :: e in endpoints && f in endpoints && e.operationId == f.operationId ==> e == f)
            && (forall e :: e in endpoints ==> e.exclusion.None? && NothingOpen(e.obligations))
            && InOrderOf(endpoints, catalog)
  {
    FilteredEndpoints(catalog, Elements(file.operations));
    forall id | id in file.operations ensures exists e :: e in catalog && e.operationId == id {
      assert Selectable(id, catalog);
    }
    forall e, f | e in catalog && f in catalog && e.operationId == f.operationId ensures e == f {
      var i :| 0 <= i < |catalog| && catalog[i] == e;
      var j :| 0 <= j < |catalog| && catalog[j] == f;
    }
    forall e | e in catalog && e.operationId in file.operations
      ensures e.exclusion.None? && NothingOpen(e.obligations)
    {
      ListedIsSettled(e, catalog);
    }
  }

  lemma ListedIsSettled(e: Endpoint, catalog: seq<Endpoint>)
    requires e in catalog && DistinctEndpoints(catalog) && Selectable(e.operationId, catalog)
    ensures e.exclusion.None? && NothingOpen(e.obligations)
  {
    var j :| 0 <= j < |catalog| && catalog[j] == e;
    var i :| 0 <= i < |catalog| && catalog[i].operationId == e.operationId && catalog[i].exclusion.None? &&
             forall kind: Kind :: catalog[i].obligations.Of(kind) != Todo;
    assert i == j;
    assert e.obligations.Of(PathKind) != Todo && e.obligations.Of(QueryKind) != Todo
      && e.obligations.Of(HeadersKind) != Todo;
    assert e.obligations.Of(BodyKind) != Todo && e.obligations.Of(SuccessKind) != Todo
      && e.obligations.Of(SseKind) != Todo;
  }

  lemma {:induction false} SelectedRootsAre(registry: seq<Root>, contracts: seq<Contract>)
    ensures forall root :: root in SelectedRoots(registry, contracts) <==>
            root in registry && HasSchema(contracts, root.id)
    decreases |registry|
  {
    if registry != [] {
      SelectedRootsAre(registry[1..], contracts);
      assert [registry[0]] + registry[1..] == registry;
    }
  }

  lemma ListOkKept(a: seq<string>, b: seq<string>)
    requires multiset(a) == multiset(b) && ListOk(a)
    ensures ListOk(b)
  {
    var same := (x: string) => x;
    assert DistinctBy(a, same);
    DistinctByTransfers(a, b, same);
    forall i, j | 0 <= i < j < |b| ensures b[i] != b[j] {
      assert same(b[i]) != same(b[j]);
    }
    forall i | 0 <= i < |b| ensures !IsBlank(b[i]) {
      SameElements(a, b, b[i]);
    }
  }

  /** The order in which the selection lists its ids does not matter. */
  lemma ListOrderDoesNotMatter(file: SelectionFile, file': SelectionFile, catalog: seq<Endpoint>,
                               inventory: seq<Contract>, registry: seq<Root>)
    requires file'.version == file.version
    requires multiset(file'.operations) == multiset(file.operations)
    requires multiset(file'.extraContracts) == multiset(file.extraContracts)
    requires FileFits(file, catalog, inventory)
    ensures FileFits(file', catalog, inventory)
    ensures Selected(file', catalog, inventory, registry) == Selected(file, catalog, inventory, registry)
  {
    ListOkKept(file.operations, file'.operations);
    ListOkKept(file.extraContracts, file'.extraContracts);
    forall id
      ensures id in file.operations <==> id in file'.operations
      ensures id in file.extraContracts <==> id in file'.extraContracts
    {
      SameElements(file.operations, file'.operations, id);
      SameElements(file.extraContracts, file'.extraContracts, id);
    }
    assert Elements(file'.operations) == Elements(file.operations);
    assert Elements(file'.extraContracts) == Elements(file.extraContracts);
  }
}
