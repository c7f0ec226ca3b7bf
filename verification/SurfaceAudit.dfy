/** The audit of contract entries and of their ownership by surface operations. */
module SurfaceAudit {
  import opened Wrappers
  import opened Catalogue
  import opened Topology
  import opened Permutations

  datatype AuditError =
    | BlankKey | WildcardKey | DuplicateKey | BadExclusion | DuplicateLink | UnknownLink | WrongSurface
    | NoExactContract | KeyMismatch | DuplicateBinding | Unbound
    | BlankEntry | DuplicateId | WildcardPath | NotExact | UnpairedSchema | ExcludedWithSchema | BadTransportEntry

  type Operations = map<string, Contract>

  /** The map is keyed by contract id, as `audit_operation_entries` returns it. */
  predicate KeyedById(operations: Operations) {
    forall id :: id in operations ==> operations[id].id == id
  }

  predicate HasDots(s: string) {
    |s| >= 3 && ((s[0] == '.' && s[1] == '.' && s[2] == '.') || HasDots(s[1..]))
  }

  predicate HasWildcard(s: string) {
    '*' in s || HasDots(s)
  }

  // ----- entries

  predicate EntryOk(c: Contract) {
    && !IsBlank(c.id) && !IsBlank(c.path) && !IsBlank(c.operation)
    && (c.granularity == Exact ==> !HasWildcard(c.path))
    && (c.schemaId.Some? <==> c.fixture.Some?)
    && ReasonOk(c.exclusion)
    && (c.exclusion.Some? ==> c.schemaId.None?)
  }

  /** `audit_operation_entries`. */
  method AuditOperationEntries(entries: seq<Contract>) returns (r: Result<Operations, AuditError>)
    ensures r.Ok? <==> InventoryOk(entries) && forall i :: 0 <= i < |entries| ==> EntryOk(entries[i])
    ensures r.Ok? ==> IndexesContracts(entries, r.value) && KeyedById(r.value)
  {
    var operations: Operations := map[];
    for i := 0 to |entries|
      invariant forall j :: 0 <= j < i ==> EntryOk(entries[j])
      invariant DistinctIds(entries[..i]) && IndexesContracts(entries[..i], operations)
    {
      var c := entries[i];
      assert entries[..i + 1] == entries[..i] + [c];
      if IsBlank(c.id) || IsBlank(c.path) || IsBlank(c.operation) {
        return Err(BlankEntry);
      }
      if c.id in operations {
        assert operations[c.id] in entries[..i];
        return Err(DuplicateId);
      }
      operations := operations[c.id := c];
      if c.granularity == Exact && HasWildcard(c.path) {
        return Err(WildcardPath);
      }
      if c.binding == ExactSurface && c.granularity != Exact {
        assert !TransportOk(c);
        return Err(NotExact);
      }
      if c.schemaId.Some? != c.fixture.Some? {
        return Err(UnpairedSchema);
      }
      if c.exclusion.Some? && IsBlank(c.exclusion.value) {
        return Err(BadExclusion);
      }
      if c.exclusion.Some? && (c.schemaId.Some? || c.fixture.Some?) {
        return Err(ExcludedWithSchema);
      }
    }
    assert entries[..|entries|] == entries;
    var validated := ValidateInventory(entries);
    return if validated.Err? then Err(BadTransportEntry) else Ok(operations);
  }

  // ----- ownership

  /** The operation key that an exact contract claims. */
  function KeyOf(c: Contract): Option<string> {
    if c.transport.Http? then c.transport.operationKey else Some(c.operation)
  }

  /** An active surface operation links a contract. */
  predicate Owns(entry: SurfaceOperation, id: string) {
    entry.exclusion.None? && id in entry.contracts
  }

  predicate KeyWellFormed(key: string) {
    !IsBlank(key) && !HasWildcard(key)
  }

  predicate LinksOk(entry: SurfaceOperation, operations: Operations) {
    && Distinct(entry.contracts)
    && (forall id :: id in entry.contracts ==> id in operations && operations[id].surface == entry.surface)
    && (exists id :: id in entry.contracts && id in operations && operations[id].binding == ExactSurface)
  }

  predicate SurfaceOk(entry: SurfaceOperation, operations: Operations) {
    && KeyWellFormed(entry.key)
    && if entry.exclusion.Some? then entry.contracts == [] && !IsBlank(entry.exclusion.value)
       else LinksOk(entry, operations)
  }

  ghost predicate UniqueKeys(entries: seq<SurfaceOperation>) {
    forall i, j :: 0 <= i < j < |entries| ==>
      (entries[i].surface, entries[i].key) != (entries[j].surface, entries[j].key)
  }

  predicate IsExact(id: string, operations: Operations) {
    id in operations && operations[id].binding == ExactSurface
  }

  /** An exact contract has exactly one owner, whose key is the key it claims. */
  ghost predicate OwnedOnce(id: string, entries: seq<SurfaceOperation>, operations: Operations)
    requires id in operations
  {
    && operations[id].granularity == Exact
    && (exists i :: 0 <= i < |entries| && Owns(entries[i], id) && KeyOf(operations[id]) == Some(entries[i].key))
    && (forall i, j | 0 <= i < |entries| && 0 <= j < |entries| ::
          Owns(entries[i], id) && Owns(entries[j], id) ==> i == j)
  }

  /** What `audit_surface_entries` accepts. */
  ghost predicate SurfacesOk(entries: seq<SurfaceOperation>, operations: Operations) {
    && (forall i :: 0 <= i < |entries| ==> SurfaceOk(entries[i], operations))
    && UniqueKeys(entries)
    && (forall id :: IsExact(id, operations) ==> OwnedOnce(id, entries, operations))
  }

  // ----- the program

  /** The link loop of one entry: the exact contracts, in link order. */
  method CollectExact(entry: SurfaceOperation, operations: Operations) returns (r: Result<seq<string>, AuditError>)
    ensures r.Ok? <==> LinksOk(entry, operations)
    ensures r.Ok? ==> forall id :: id in r.value <==> id in entry.contracts && IsExact(id, operations)
    ensures r.Ok? ==> Distinct(r.value)
  {
    var links := entry.contracts;
    var exact: seq<string>, linked: set<string> := [], {};
    for i := 0 to |links|
      invariant forall j :: 0 <= j < i ==>
                links[j] in operations && operations[links[j]].surface == entry.surface && links[j] in linked
      invariant forall id :: id in linked ==> exists j :: 0 <= j < i && links[j] == id
      invariant Distinct(links[..i]) && Distinct(exact)
      invariant forall id :: id in exact <==> id in linked && IsExact(id, operations)
    {
      var id := links[i];
      if id in linked {
        return Err(DuplicateLink);
      }
      linked := linked + {id};
      if id !in operations {
        return Err(UnknownLink);
      }
      if operations[id].surface != entry.surface {
        return Err(WrongSurface);
      }
      if operations[id].binding == ExactSurface {
        exact := exact + [id];
      }
    }
    assert links[..|links|] == links;
    if |exact| == 0 {
      return Err(NoExactContract);
    }
    assert exact[0] in exact;
    return Ok(exact);
  }

  /** The bindings made so far: each exact contract linked by one of the first `n` entries, with that entry. */
  ghost predicate Binds(bindings: map<string, string>, entries: seq<SurfaceOperation>, n: nat, operations: Operations)
    requires n <= |entries|
  {
    && (forall id :: id in bindings ==> IsExact(id, operations) && exists i :: 0 <= i < n && Owns(entries[i], id))
    && (forall i, id :: 0 <= i < n && Owns(entries[i], id) && IsExact(id, operations) ==> id in bindings)
  }

  /** `audit_exact_surface_binding`, but for the insertion. */
  predicate BindingOk(entry: SurfaceOperation, id: string, operations: Operations) {
    IsExact(id, operations) &&
    var c := operations[id];
    c.granularity == Exact && c.surface == entry.surface && KeyOf(c) == Some(entry.key)
  }

  /** `audit_exact_surface_binding` for the exact contracts of entry `i`. */
  method BindEntry(entries: seq<SurfaceOperation>, i: nat, exact: seq<string>, bindings: map<string, string>,
                   operations: Operations)
    returns (r: Result<map<string, string>, AuditError>)
    requires i < |entries| && entries[i].exclusion.None? && Distinct(exact) && Binds(bindings, entries, i, operations)
    requires forall id :: id in exact <==> id in entries[i].contracts && IsExact(id, operations)
    ensures r.Ok? <==> forall id :: id in exact ==> BindingOk(entries[i], id, operations) && id !in bindings
    ensures r.Ok? ==> Binds(r.value, entries, i + 1, operations)
  {
    var bound := bindings;
    for n := 0 to |exact|
      invariant forall m :: 0 <= m < n ==>
                BindingOk(entries[i], exact[m], operations) && exact[m] !in bindings && exact[m] in bound
      invariant forall id :: id in bound <==> id in bindings || exists m :: 0 <= m < n && exact[m] == id
    {
      var id := exact[n];
      assert id in exact;
      if !BindingOk(entries[i], id, operations) {
        return Err(KeyMismatch);
      }
      if id in bound {
        return Err(DuplicateBinding);
      }
      bound := bound[id := entries[i].key];
    }
    BindsNext(bindings, bound, entries, i, exact, operations);
    return Ok(bound);
  }

  lemma BindsNext(bindings: map<string, string>, bound: map<string, string>, entries: seq<SurfaceOperation>, i: nat,
                  exact: seq<string>, operations: Operations)
    requires i < |entries| && entries[i].exclusion.None? && Binds(bindings, entries, i, operations)
    requires forall id :: id in exact <==> id in entries[i].contracts && IsExact(id, operations)
    requires forall id :: id in bound <==> id in bindings || id in exact
    ensures Binds(bound, entries, i + 1, operations)
  {
    forall id | id in bound ensures IsExact(id, operations) && exists j :: 0 <= j < i + 1 && Owns(entries[j], id) {
      if id in exact {
        assert Owns(entries[i], id);
      }
    }
  }

  /** What holds of the first `n` entries while the audit goes on. */
  ghost predicate AuditedSoFar(entries: seq<SurfaceOperation>, n: nat, operations: Operations)
    requires n <= |entries|
  {
    && (forall j :: 0 <= j < n ==> SurfaceOk(entries[j], operations))
    && UniqueKeys(entries[..n])
    && (forall j, id :: 0 <= j < n && Owns(entries[j], id) && IsExact(id, operations) ==>
          BindingOk(entries[j], id, operations))
    && (forall j, k, id | 0 <= j < n && 0 <= k < n && IsExact(id, operations) ::
          Owns(entries[j], id) && Owns(entries[k], id) ==> j == k)
  }

  /** An exact contract that an audited catalogue binds wrongly, or twice, is not owned once. */
  lemma WrongBinding(entries: seq<SurfaceOperation>, i: nat, id: string, operations: Operations)
    requires SurfacesOk(entries, operations) && KeyedById(operations)
    requires i < |entries| && Owns(entries[i], id) && IsExact(id, operations)
    ensures BindingOk(entries[i], id, operations)
    ensures forall j :: 0 <= j < |entries| && Owns(entries[j], id) ==> j == i
  {
    assert OwnedOnce(id, entries, operations);
    assert SurfaceOk(entries[i], operations);
  }

  lemma AuditedMeansOk(entries: seq<SurfaceOperation>, operations: Operations, bindings: map<string, string>)
    requires AuditedSoFar(entries, |entries|, operations) && Binds(bindings, entries, |entries|, operations)
    ensures SurfacesOk(entries, operations) <==> forall id :: IsExact(id, operations) ==> id in bindings
  {
    assert entries[..|entries|] == entries;
    if forall id :: IsExact(id, operations) ==> id in bindings {
      forall id | IsExact(id, operations) ensures OwnedOnce(id, entries, operations) {
        var i :| 0 <= i < |entries| && Owns(entries[i], id);
        assert BindingOk(entries[i], id, operations);
      }
    }
    if SurfacesOk(entries, operations) {
      forall id | IsExact(id, operations) ensures id in bindings {
        assert OwnedOnce(id, entries, operations);
      }
    }
  }

  ghost predicate KeysOf(keys: set<(Surface, string)>, entries: seq<SurfaceOperation>, n: nat)
    requires n <= |entries|
  {
    forall k :: k in keys <==> exists j :: 0 <= j < n && (entries[j].surface, entries[j].key) == k
  }

  /** One round of `audit_surface_entries`, after the key was found to be new. */
  method AuditEntry(entries: seq<SurfaceOperation>, i: nat, bindings: map<string, string>, operations: Operations)
    returns (r: Result<map<string, string>, AuditError>)
    requires KeyedById(operations) && i < |entries| && KeyWellFormed(entries[i].key) && UniqueKeys(entries[..i + 1])
    requires AuditedSoFar(entries, i, operations) && Binds(bindings, entries, i, operations)
    ensures if r.Ok? then AuditedSoFar(entries, i + 1, operations) && Binds(r.value, entries, i + 1, operations)
            else !SurfacesOk(entries, operations)
  {
    var entry := entries[i];
    if entry.exclusion.Some? {
      ExcludedEntry(entries, i, bindings, operations);
      if |entry.contracts| != 0 || IsBlank(entry.exclusion.value) {
        return Err(BadExclusion);
      }
      return Ok(bindings);
    }
    r := AuditActiveEntry(entries, i, bindings, operations);
  }

  lemma ExcludedEntry(entries: seq<SurfaceOperation>, i: nat, bindings: map<string, string>, operations: Operations)
    requires i < |entries| && KeyWellFormed(entries[i].key) && UniqueKeys(entries[..i + 1])
    requires AuditedSoFar(entries, i, operations) && Binds(bindings, entries, i, operations)
    requires entries[i].exclusion.Some?
    ensures if entries[i].contracts == [] && !IsBlank(entries[i].exclusion.value) then
              AuditedSoFar(entries, i + 1, operations) && Binds(bindings, entries, i + 1, operations)
            else !SurfacesOk(entries, operations)
  {
    ExcludedOwnsNothing(entries, i, bindings, operations);
    if !(entries[i].contracts == [] && !IsBlank(entries[i].exclusion.value)) {
      assert !SurfaceOk(entries[i], operations);
    }
  }

  lemma ExcludedOwnsNothing(entries: seq<SurfaceOperation>, i: nat, bindings: map<string, string>,
                            operations: Operations)
    requires i < |entries| && UniqueKeys(entries[..i + 1]) && entries[i].exclusion.Some?
    requires AuditedSoFar(entries, i, operations) && Binds(bindings, entries, i, operations)
    ensures SurfaceOk(entries[i], operations) ==> AuditedSoFar(entries, i + 1, operations)
    ensures Binds(bindings, entries, i + 1, operations)
  {
    assert forall id :: !Owns(entries[i], id);
  }

  /** The rest of the round, for an entry that is not excluded. */
  method AuditActiveEntry(entries: seq<SurfaceOperation>, i: nat, bindings: map<string, string>, operations: Operations)
    returns (r: Result<map<string, string>, AuditError>)
    requires KeyedById(operations) && i < |entries| && KeyWellFormed(entries[i].key) && UniqueKeys(entries[..i + 1])
    requires AuditedSoFar(entries, i, operations) && Binds(bindings, entries, i, operations)
    requires entries[i].exclusion.None?
    ensures if r.Ok? then AuditedSoFar(entries, i + 1, operations) && Binds(r.value, entries, i + 1, operations)
            else !SurfacesOk(entries, operations)
  {
    var exact := CollectExact(entries[i], operations);
    if exact.Err? {
      assert !SurfaceOk(entries[i], operations);
      return Err(exact.error);
    }
    r := BindEntry(entries, i, exact.value, bindings, operations);
    if r.Err? {
      RefusedBinding(entries, i, exact.value, bindings, operations);
    } else {
      OwnersApart(entries, i, exact.value, bindings, operations);
    }
  }

  /** `audit_surface_entries`. */
  method AuditSurfaceEntries(entries: seq<SurfaceOperation>, operations: Operations) returns (r: Result<(), AuditError>)
    requires KeyedById(operations)
    ensures r.Ok? <==> SurfacesOk(entries, operations)
  {
    var keys: set<(Surface, string)>, bindings: map<string, string> := {}, map[];
    for i := 0 to |entries|
      invariant AuditedSoFar(entries, i, operations) && Binds(bindings, entries, i, operations)
                && KeysOf(keys, entries, i)
    {
      var entry := entries[i];
      if IsBlank(entry.key) || HasWildcard(entry.key) {
        assert !SurfaceOk(entries[i], operations);
        return Err(if IsBlank(entry.key) then BlankKey else WildcardKey);
      }
      if (entry.surface, entry.key) in keys {
        return Err(DuplicateKey);
      }
      NewKey(keys, entries, i);
      keys := keys + {(entry.surface, entry.key)};
      var audited := AuditEntry(entries, i, bindings, operations);
      if audited.Err? {
        return Err(audited.error);
      }
      bindings := audited.value;
    }
    AuditedMeansOk(entries, operations, bindings);
    if forall id :: id in operations && operations[id].binding == ExactSurface ==> id in bindings {
      return Ok(());
    }
    return Err(Unbound);
  }

  lemma NewKey(keys: set<(Surface, string)>, entries: seq<SurfaceOperation>, i: nat)
    requires i < |entries| && KeysOf(keys, entries, i) && UniqueKeys(entries[..i])
    requires (entries[i].surface, entries[i].key) !in keys
    ensures UniqueKeys(entries[..i + 1]) && KeysOf(keys + {(entries[i].surface, entries[i].key)}, entries, i + 1)
  {
  }

  lemma RefusedBinding(entries: seq<SurfaceOperation>, i: nat, exact: seq<string>, bindings: map<string, string>,
                       operations: Operations)
    requires KeyedById(operations) && i < |entries| && entries[i].exclusion.None?
             && Binds(bindings, entries, i, operations)
    requires forall id :: id in exact <==> id in entries[i].contracts && IsExact(id, operations)
    requires exists id :: id in exact && (!BindingOk(entries[i], id, operations) || id in bindings)
    ensures !SurfacesOk(entries, operations)
  {
    if SurfacesOk(entries, operations) {
      var id :| id in exact && (!BindingOk(entries[i], id, operations) || id in bindings);
      assert Owns(entries[i], id);
      WrongBinding(entries, i, id, operations);
      assert false;
    }
  }

  lemma OwnersApart(entries: seq<SurfaceOperation>, i: nat, exact: seq<string>, bindings: map<string, string>,
                    operations: Operations)
    requires i < |entries| && AuditedSoFar(entries, i, operations) && Binds(bindings, entries, i, operations)
    requires UniqueKeys(entries[..i + 1]) && SurfaceOk(entries[i], operations)
    requires forall id :: id in exact <==> id in entries[i].contracts && IsExact(id, operations)
    requires forall id :: id in exact ==> BindingOk(entries[i], id, operations) && id !in bindings
    ensures AuditedSoFar(entries, i + 1, operations)
  {
    forall j, id | 0 <= j < i && Owns(entries[j], id) && IsExact(id, operations) ensures !Owns(entries[i], id) {
      assert id in bindings;
    }
  }

  /** `audit_shared_component_links`: the shared components linked on their own surface are all there are. */
  function LinkedShared(entries: seq<SurfaceOperation>, operations: Operations): set<string> {
    set i, id | 0 <= i < |entries| && id in entries[i].contracts && id in operations &&
                operations[id].binding == SharedComponent && operations[id].surface == entries[i].surface :: id
  }

  function ExpectedShared(operations: Operations): set<string> {
    set id | id in operations && operations[id].binding == SharedComponent
  }

  predicate SharedAuditPasses(entries: seq<SurfaceOperation>, operations: Operations) {
    LinkedShared(entries, operations) == ExpectedShared(operations)
  }

  ghost predicate LinkedSomewhere(id: string, entries: seq<SurfaceOperation>, surface: Surface) {
    exists i :: 0 <= i < |entries| && id in entries[i].contracts && entries[i].surface == surface
  }

  /** The two audits together: every contract is linked on its own surface, an exact one by exactly one entry
      whose key it claims. */
  lemma AuditedContractsAreLinked(entries: seq<SurfaceOperation>, operations: Operations, id: string)
    requires KeyedById(operations) && SurfacesOk(entries, operations) && SharedAuditPasses(entries, operations)
             && id in operations
    ensures LinkedSomewhere(id, entries, operations[id].surface)
    ensures operations[id].binding == ExactSurface ==> OwnedOnce(id, entries, operations)
  {
    if operations[id].binding == SharedComponent {
      assert id in ExpectedShared(operations);
      assert id in LinkedShared(entries, operations);
    } else {
      assert IsExact(id, operations) && OwnedOnce(id, entries, operations);
      var i :| 0 <= i < |entries| && Owns(entries[i], id);
      assert SurfaceOk(entries[i], operations);
    }
  }
}
