/** The whole audit of the published catalogue, reduced to its declarations. */
module AuditSoundness {
  import opened Catalogue
  import opened Permutations
  import opened Topology
  import opened ProjectionSoundness
  import opened Reorder
  import opened PublishedCatalogue
  import opened SchemaRegistry
  import opened InventoryAudit
  import opened DeclaredAudit
  import opened SchemaProjection

  /** What the audits ask of the declarations, beside contracts and roots that are declared elsewhere. */
  ghost predicate Auditable(ops: seq<OperationDecl>, extras: seq<Contract>, extraRoots: seq<Root>)
    requires AllProjectable(ops) && AllHaveRootParts(ops)
  {
    && WellFormed(ops, extras)
    && EntriesDeclared(ops, extras)
    && SurfacesDeclared(ops, extras)
    && SharedDeclared(ops, extras)
    && RootsDeclared(ops, extras, extraRoots)
  }

  lemma AuditedIff(ops: seq<OperationDecl>, extras: seq<Contract>, extraRoots: seq<Root>, catalog: seq<Endpoint>,
                   inventory: seq<Contract>, registry: seq<Root>)
    requires AllProjectable(ops) && AllHaveRootParts(ops) && WellFormed(ops, extras)
    requires multiset(catalog) == multiset(Endpoints(ops)) && multiset(inventory) == multiset(Contracts(ops) + extras)
    requires multiset(registry) == multiset(Schemas(ops) + extraRoots) && TopologyOk(catalog, inventory)
    ensures ContractsAudited(Entries(catalog, ops), registry, inventory) <==>
            SurfacesDeclared(ops, extras) && SharedDeclared(ops, extras) && RootsDeclared(ops, extras, extraRoots)
  {
    DistinctBoth(DeclaredIds(ops), Ids(extras));
    DistinctIdsIff(ops, extras);
    var operations := Indexed(ops, extras, inventory);
    AuditedByIndex(Entries(catalog, ops), registry, inventory, operations);
    SurfacesIff(ops, extras, catalog, inventory, operations);
    if MaintenanceKnown(ops, extras) {
      SharedIff(ops, extras, catalog, inventory, operations);
    }
    RegistryIff(ops, extras, extraRoots, registry, operations);
  }

  /** `audit_inventory` accepts the published catalogue if and only if the declarations are auditable. */
  lemma AuditAcceptedIff(ops: seq<OperationDecl>, extras: seq<Contract>, extraRoots: seq<Root>, catalog: seq<Endpoint>,
                         registry: seq<Root>, endpointOrder: seq<string>, contractOrder: seq<string>)
    requires AllProjectable(ops) && AllHaveRootParts(ops)
    requires StablySorts(Endpoints(ops), catalog, EndpointRank(endpointOrder))
    requires multiset(registry) == multiset(Schemas(ops) + extraRoots)
    ensures InventoryPasses(catalog, Reordered(Contracts(ops) + extras, contractOrder), ops, registry) <==>
            Auditable(ops, extras, extraRoots)
  {
    var inventory := Reordered(Contracts(ops) + extras, contractOrder);
    PublishedCatalogueAcceptedIff(ops, extras, catalog, endpointOrder, contractOrder);
    StableIsPermutation(Endpoints(ops), catalog, EndpointRank(endpointOrder));
    ReorderedIsPermutation(Contracts(ops) + extras, contractOrder);
    EntriesIff(ops, extras, inventory);
    if WellFormed(ops, extras) {
      AuditedIff(ops, extras, extraRoots, catalog, inventory, registry);
    }
  }
}
