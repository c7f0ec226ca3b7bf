/** The catalogue as it is published: endpoints sorted into their historical order, contracts of all sources
    reordered.  Ordering changes nothing about what the validator says. */
module PublishedCatalogue {
  import opened Catalogue
  import opened Topology
  import opened Reorder
  import opened ProjectionSoundness
  import opened Permutations

  lemma InventoryKept(inventory: seq<Contract>, inventory': seq<Contract>)
    requires multiset(inventory) == multiset(inventory') && InventoryOk(inventory)
    ensures InventoryOk(inventory')
  {
    var id := (c: Contract) => c.id;
    assert DistinctBy(inventory, id);
    DistinctByTransfers(inventory, inventory', id);
    forall i, j | 0 <= i < j < |inventory'| ensures inventory'[i].id != inventory'[j].id {
      assert id(inventory'[i]) != id(inventory'[j]);
    }
    forall i | 0 <= i < |inventory'| ensures TransportOk(inventory'[i]) {
      SameElements(inventory, inventory', inventory'[i]);
    }
  }

  lemma EndpointsKept(catalog: seq<Endpoint>, catalog': seq<Endpoint>)
    requires multiset(catalog) == multiset(catalog') && DistinctEndpoints(catalog)
    ensures DistinctEndpoints(catalog')
  {
    var id, route := (e: Endpoint) => e.operationId, (e: Endpoint) => (e.verb, e.path);
    assert DistinctBy(catalog, id) && DistinctBy(catalog, route);
    DistinctByTransfers(catalog, catalog', id);
    DistinctByTransfers(catalog, catalog', route);
    forall i, j | 0 <= i < j < |catalog'|
      ensures catalog'[i].operationId != catalog'[j].operationId
      ensures (catalog'[i].verb, catalog'[i].path) != (catalog'[j].verb, catalog'[j].path)
    {
      assert id(catalog'[i]) != id(catalog'[j]) && route(catalog'[i]) != route(catalog'[j]);
    }
  }

  lemma LinksKept(links: seq<string>, surface: Surface, inventory: seq<Contract>, inventory': seq<Contract>)
    requires forall c :: c in inventory ==> c in inventory'
    requires SharedLinksOk(links, surface, inventory)
    ensures SharedLinksOk(links, surface, inventory')
  {
    forall i | 0 <= i < |links| ensures LinkKnown(links[i], surface, inventory') {
      assert LinkKnown(links[i], surface, inventory);
    }
  }

  lemma EndpointKept(e: Endpoint, inventory: seq<Contract>, inventory': seq<Contract>)
    requires forall c :: c in inventory ==> c in inventory'
    requires EndpointOk(e, inventory)
    ensures EndpointOk(e, inventory')
  {
    forall kind: Kind ensures ObligationOk(e, kind, inventory') {
      assert ObligationOk(e, kind, inventory);
    }
    LinksKept(e.sharedComponents, e.surface, inventory, inventory');
  }

  lemma TopologyKept(catalog: seq<Endpoint>, catalog': seq<Endpoint>, inventory: seq<Contract>,
                     inventory': seq<Contract>)
    requires multiset(catalog) == multiset(catalog') && multiset(inventory) == multiset(inventory')
    requires TopologyOk(catalog, inventory)
    ensures TopologyOk(catalog', inventory')
  {
    InventoryKept(inventory, inventory');
    EndpointsKept(catalog, catalog');
    forall c ensures c in inventory <==> c in inventory' {
      SameElements(inventory, inventory', c);
    }
    forall i | 0 <= i < |catalog'| ensures EndpointOk(catalog'[i], inventory') {
      SameElements(catalog, catalog', catalog'[i]);
      var j :| 0 <= j < |catalog| && catalog[j] == catalog'[i];
      EndpointKept(catalog[j], inventory, inventory');
    }
  }

  lemma {:induction false} ReorderedIsPermutation(inventory: seq<Contract>, order: seq<string>)
    ensures multiset(Reordered(inventory, order)) == multiset(inventory)
    decreases |order|
  {
    if order != [] {
      match FindId(inventory, order[0])
      case Some(i) =>
        ReorderedIsPermutation(Without(inventory, i), order[1..]);
        assert inventory == inventory[..i] + [inventory[i]] + inventory[i + 1..];
      case None => ReorderedIsPermutation(inventory, order[1..]);
    }
  }

  /** The published catalogue passes its validator if and only if the declarations are well formed. */
  lemma PublishedCatalogueAcceptedIff(ops: seq<OperationDecl>, extras: seq<Contract>, catalog: seq<Endpoint>,
                                      endpointOrder: seq<string>, contractOrder: seq<string>)
    requires AllProjectable(ops)
    requires StablySorts(Endpoints(ops), catalog, EndpointRank(endpointOrder))
    ensures TopologyOk(catalog, Reordered(Contracts(ops) + extras, contractOrder)) <==> WellFormed(ops, extras)
  {
    var inventory := Contracts(ops) + extras;
    StableIsPermutation(Endpoints(ops), catalog, EndpointRank(endpointOrder));
    ReorderedIsPermutation(inventory, contractOrder);
    ProjectionAcceptedIff(ops, extras);
    if TopologyOk(Endpoints(ops), inventory) {
      TopologyKept(Endpoints(ops), catalog, inventory, Reordered(inventory, contractOrder));
    }
    if TopologyOk(catalog, Reordered(inventory, contractOrder)) {
      TopologyKept(catalog, Endpoints(ops), Reordered(inventory, contractOrder), inventory);
    }
  }
}
