/** `audit_inventory`: the audits that a catalogue has to pass before anything is generated from it. */
module InventoryAudit {
  import opened Wrappers
  import opened Catalogue
  import opened Topology
  import opened SurfaceAudit
  import opened SurfaceCatalogue
  import opened SchemaRegistry

  datatype InventoryError =
    | BadTopology(rejection: Rejection) | BadAudit(error: AuditError) | UnlinkedShared
    | BadRegistry(reason: RegistryError)

  /** Endpoints, then the operations of the other surfaces. */
  function Entries(catalog: seq<Endpoint>, ops: seq<OperationDecl>): seq<SurfaceOperation> {
    EndpointEntries(catalog) + OtherSurfaces(ops) + [MAINTENANCE]
  }

  /** The audits that run over the contracts by id. */
  ghost predicate Audited(entries: seq<SurfaceOperation>, registry: seq<Root>, operations: Operations) {
    SurfacesOk(entries, operations) && SharedAuditPasses(entries, operations) && RegistryOk(registry, operations)
  }

  ghost predicate ContractsAudited(entries: seq<SurfaceOperation>, registry: seq<Root>, inventory: seq<Contract>) {
    exists operations :: IndexesContracts(inventory, operations) && Audited(entries, registry, operations)
  }

  ghost predicate InventoryPasses(catalog: seq<Endpoint>, inventory: seq<Contract>, ops: seq<OperationDecl>,
                                  registry: seq<Root>)
  {
    && TopologyOk(catalog, inventory)
    && (forall i :: 0 <= i < |inventory| ==> EntryOk(inventory[i]))
    && ContractsAudited(Entries(catalog, ops), registry, inventory)
  }

  lemma IndexIsUnique(inventory: seq<Contract>, a: Operations, b: Operations)
    requires IndexesContracts(inventory, a) && IndexesContracts(inventory, b)
    ensures a == b
  {
    forall id ensures id in a <==> id in b {
      if id in a {
        assert a[id] in inventory;
      }
      if id in b {
        assert b[id] in inventory;
      }
    }
    forall id | id in a ensures a[id] == b[id] {
      assert a[id] in inventory;
    }
  }

  lemma AuditedByIndex(entries: seq<SurfaceOperation>, registry: seq<Root>, inventory: seq<Contract>,
                       operations: Operations)
    requires IndexesContracts(inventory, operations)
    ensures ContractsAudited(entries, registry, inventory) <==> Audited(entries, registry, operations)
  {
    if ContractsAudited(entries, registry, inventory) {
      var other :| IndexesContracts(inventory, other) && Audited(entries, registry, other);
      IndexIsUnique(inventory, operations, other);
    }
  }

  /** `audit_inventory`. */
  method AuditInventory(catalog: seq<Endpoint>, inventory: seq<Contract>, ops: seq<OperationDecl>, registry: seq<Root>)
    returns (r: Result<(), InventoryError>)
    ensures r.Ok? <==> InventoryPasses(catalog, inventory, ops, registry)
  {
    var topology := ValidateContractTopology(catalog, inventory);
    if topology.Err? {
      return Err(BadTopology(topology.error));
    }
    var operations := AuditOperationEntries(inventory);
    if operations.Err? {
      return Err(BadAudit(operations.error));
    }
    var surfaces := SurfaceOperationCatalog(catalog, ops);
    AuditedByIndex(surfaces, registry, inventory, operations.value);
    var audited := AuditSurfaceEntries(surfaces, operations.value);
    if audited.Err? {
      return Err(BadAudit(audited.error));
    }
    if !SharedAuditPasses(surfaces, operations.value) {
      return Err(UnlinkedShared);
    }
    var rooted := AuditSchemaRegistry(registry, operations.value);
    if rooted.Err? {
      return Err(BadRegistry(rooted.error));
    }
    return Ok(());
  }

  /** In an audited catalogue every contract is linked on its own surface, an exact one by a single entry with
      the key it claims. */
  lemma EveryContractIsLinked(catalog: seq<Endpoint>, inventory: seq<Contract>, ops: seq<OperationDecl>,
                              registry: seq<Root>, c: Contract)
    requires InventoryPasses(catalog, inventory, ops, registry) && c in inventory
    ensures LinkedSomewhere(c.id, Entries(catalog, ops), c.surface)
    ensures c.binding == ExactSurface ==>
              exists i :: 0 <= i < |Entries(catalog, ops)| && Owns(Entries(catalog, ops)[i], c.id) &&
                          KeyOf(c) == Some(Entries(catalog, ops)[i].key)
  {
    var entries := Entries(catalog, ops);
    var operations :| IndexesContracts(inventory, operations) && Audited(entries, registry, operations);
    AuditedContractsAreLinked(entries, operations, c.id);
  }

  /** In an audited catalogue the registry finds, for the schema of any contract, that contract's own root. */
  lemma EverySchemaHasItsRoot(catalog: seq<Endpoint>, inventory: seq<Contract>, ops: seq<OperationDecl>,
                              registry: seq<Root>, c: Contract)
    requires InventoryPasses(catalog, inventory, ops, registry) && c in inventory && c.schemaId.Some?
    ensures var found := FindRoot(registry, c.schemaId.value);
            found.Some? && found.value.contractId == c.id && Matches(found.value, c)
  {
    var operations :| IndexesContracts(inventory, operations) && Audited(Entries(catalog, ops), registry, operations);
    var i :| 0 <= i < |inventory| && inventory[i] == c;
    assert EntryOk(inventory[i]);
    FoundRootIsOwn(registry, operations, c.id);
  }

  /** And a contract's own root is the one that is found by its schema. */
  lemma OwnRootIsFound(catalog: seq<Endpoint>, inventory: seq<Contract>, ops: seq<OperationDecl>, registry: seq<Root>,
                       c: Contract, root: Root)
    requires InventoryPasses(catalog, inventory, ops, registry) && c in inventory && c.schemaId.Some?
    requires root in registry && root.contractId == c.id
    ensures FindRoot(registry, c.schemaId.value) == Some(root)
  {
    var operations :| IndexesContracts(inventory, operations) && Audited(Entries(catalog, ops), registry, operations);
    assert operations[c.id] == c;
    RootIsFound(registry, operations, root);
  }

  lemma RootIsOwn(catalog: seq<Endpoint>, inventory: seq<Contract>, ops: seq<OperationDecl>, registry: seq<Root>,
                  c: Contract, root: Root)
    requires InventoryPasses(catalog, inventory, ops, registry) && c in inventory && c.schemaId == Some(root.id)
             && root in registry
    ensures root.contractId == c.id
  {
    var operations :| IndexesContracts(inventory, operations) && Audited(Entries(catalog, ops), registry, operations);
    RootIsFound(registry, operations, root);
    EverySchemaHasItsRoot(catalog, inventory, ops, registry, c);
  }

  lemma OneRootEach(catalog: seq<Endpoint>, inventory: seq<Contract>, ops: seq<OperationDecl>, registry: seq<Root>,
                    a: Root, b: Root)
    requires InventoryPasses(catalog, inventory, ops, registry) && a in registry && b in registry
    requires a.contractId == b.contractId
    ensures a == b
  {
    var operations :| IndexesContracts(inventory, operations) && Audited(Entries(catalog, ops), registry, operations);
    RootIsFound(registry, operations, a);
    RootIsFound(registry, operations, b);
  }
}
