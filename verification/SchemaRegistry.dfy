/** The registry of schema roots, and the audit that ties it to the contract inventory. */
module SchemaRegistry {
  import opened Wrappers
  import opened Catalogue
  import opened Permutations
  import opened SurfaceAudit

  datatype Root = Root(
    id: string, artifactPath: string, contractId: string, direction: Direction, strictness: Strictness,
    validFixture: string, invalidFixture: string)

  datatype RegistryError = RepeatedId | RepeatedArtifact | NoContract | Mismatch | CountMismatch

  /** The contracts that declare a schema and a fixture. */
  function SchemaIds(operations: Operations): set<string> {
    set id | id in operations && operations[id].schemaId.Some? && operations[id].fixture.Some?
  }

  /** The root says what its contract says. */
  predicate Matches(root: Root, c: Contract) {
    && c.schemaId == Some(root.id) && c.direction == root.direction
    && c.strictness == root.strictness && c.fixture == Some(root.validFixture)
  }

  predicate RootOk(root: Root, operations: Operations) {
    root.contractId in SchemaIds(operations) && Matches(root, operations[root.contractId])
  }

  predicate HasRoot(registry: seq<Root>, id: string) {
    exists i :: 0 <= i < |registry| && registry[i].contractId == id
  }

  /** What `audit_schema_registry` accepts: every root matches its contract, and every contract with a schema has
      its root.  The code counts instead of looking for the roots. */
  ghost predicate RegistryOk(registry: seq<Root>, operations: Operations) {
    && (forall i :: 0 <= i < |registry| ==> RootOk(registry[i], operations))
    && (forall i, j :: 0 <= i < j < |registry| ==>
          registry[i].id != registry[j].id && registry[i].artifactPath != registry[j].artifactPath)
    && (forall id :: id in SchemaIds(operations) ==> HasRoot(registry, id))
  }

  function ContractIds(registry: seq<Root>): (ids: seq<string>)
    ensures |ids| == |registry| && forall i :: 0 <= i < |registry| ==> ids[i] == registry[i].contractId
  {
    seq(|registry|, i requires 0 <= i < |registry| => registry[i].contractId)
  }

  // ----- counting

  lemma {:induction false} DistinctCount(s: seq<string>)
    requires Distinct(s)
    ensures |set x | x in s| == |s|
    decreases |s|
  {
    if s != [] {
      var init, last := s[..|s| - 1], s[|s| - 1];
      DistinctCount(init);
      assert s == init + [last];
      assert (set x | x in s) == (set x | x in init) + {last};
      assert last !in init;
    }
  }

  lemma SameCountIff(a: set<string>, b: set<string>)
    requires a <= b
    ensures |a| == |b| <==> a == b
  {
    assert b - a + a == b;
  }

  /** Roots of different ids belong to different contracts, so as many roots as contracts with schemas means one
      root for each of them. */
  lemma CountDecides(registry: seq<Root>, operations: Operations)
    requires forall i :: 0 <= i < |registry| ==> RootOk(registry[i], operations)
    requires forall i, j :: 0 <= i < j < |registry| ==> registry[i].id != registry[j].id
    ensures |SchemaIds(operations)| == |registry| <==>
            forall id :: id in SchemaIds(operations) ==> HasRoot(registry, id)
  {
    var ids := ContractIds(registry);
    forall i, j | 0 <= i < j < |ids| ensures ids[i] != ids[j] {
      assert RootOk(registry[i], operations) && RootOk(registry[j], operations);
    }
    DistinctCount(ids);
    var owners := set x | x in ids;
    forall id ensures id in owners <==> HasRoot(registry, id) {
      if HasRoot(registry, id) {
        var i :| 0 <= i < |registry| && registry[i].contractId == id;
        assert ids[i] == id;
      }
    }
    forall id | id in owners ensures id in SchemaIds(operations) {
      var i :| 0 <= i < |registry| && registry[i].contractId == id;
      assert RootOk(registry[i], operations);
    }
    SameCountIff(owners, SchemaIds(operations));
  }

  // ----- the program

  ghost predicate AuditedRoots(registry: seq<Root>, n: nat, operations: Operations)
    requires n <= |registry|
  {
    && (forall i :: 0 <= i < n ==> RootOk(registry[i], operations))
    && (forall i, j :: 0 <= i < j < n ==>
          registry[i].id != registry[j].id && registry[i].artifactPath != registry[j].artifactPath)
  }

  function RootIds(registry: seq<Root>, n: nat): set<string>
    requires n <= |registry|
  {
    set i | 0 <= i < n :: registry[i].id
  }

  function ArtifactPaths(registry: seq<Root>, n: nat): set<string>
    requires n <= |registry|
  {
    set i | 0 <= i < n :: registry[i].artifactPath
  }

  lemma NextRoot(registry: seq<Root>, i: nat, operations: Operations)
    requires i < |registry| && AuditedRoots(registry, i, operations)
    ensures AuditedRoots(registry, i + 1, operations) <==>
            && registry[i].id !in RootIds(registry, i) && registry[i].artifactPath !in ArtifactPaths(registry, i)
            && RootOk(registry[i], operations)
  {
  }

  lemma AuditedPrefix(registry: seq<Root>, n: nat, operations: Operations)
    requires n <= |registry|
    ensures RegistryOk(registry, operations) ==> AuditedRoots(registry, n, operations)
  {
  }

  /** `audit_root_mapping`. */
  method AuditRootMapping(root: Root, c: Contract) returns (ok: bool)
    requires c.schemaId.Some? && c.fixture.Some?
    ensures ok <==> Matches(root, c)
  {
    if c.schemaId.value != root.id {
      return false;
    }
    if c.direction != root.direction {
      return false;
    }
    if c.strictness != root.strictness {
      return false;
    }
    return c.fixture.value == root.validFixture;
  }

  /** `audit_schema_registry`. */
  method AuditSchemaRegistry(registry: seq<Root>, operations: Operations) returns (r: Result<(), RegistryError>)
    ensures r.Ok? <==> RegistryOk(registry, operations)
  {
    var schemaIds := SchemaIds(operations);
    var rootIds: set<string>, artifactPaths: set<string> := {}, {};
    for i := 0 to |registry|
      invariant rootIds == RootIds(registry, i) && artifactPaths == ArtifactPaths(registry, i)
      invariant AuditedRoots(registry, i, operations)
    {
      var root := registry[i];
      NextRoot(registry, i, operations);
      AuditedPrefix(registry, i + 1, operations);
      if root.id in rootIds {
        return Err(RepeatedId);
      }
      rootIds := rootIds + {root.id};
      if root.artifactPath in artifactPaths {
        return Err(RepeatedArtifact);
      }
      artifactPaths := artifactPaths + {root.artifactPath};
      if root.contractId !in schemaIds {
        return Err(NoContract);
      }
      var matches := AuditRootMapping(root, operations[root.contractId]);
      if !matches {
        return Err(Mismatch);
      }
    }
    CountDecides(registry, operations);
    return if |schemaIds| != |registry| then Err(CountMismatch) else Ok(());
  }

  // ----- what an audited registry offers

  /** The first root of a schema, which is what the generator looks for. */
  function FindRoot(registry: seq<Root>, schemaId: string): (found: Option<Root>)
    ensures found.Some? ==> found.value in registry && found.value.id == schemaId
    ensures found.None? ==> forall root :: root in registry ==> root.id != schemaId
  {
    if registry == [] then None
    else if registry[0].id == schemaId then Some(registry[0])
    else FindRoot(registry[1..], schemaId)
  }

  /** The root that is found by a contract's schema is the contract's own root: no other contract has that
      schema, and the root's fixture is the contract's. */
  lemma FoundRootIsOwn(registry: seq<Root>, operations: Operations, id: string)
    requires KeyedById(operations) && RegistryOk(registry, operations) && id in SchemaIds(operations)
    ensures var found := FindRoot(registry, operations[id].schemaId.value);
            found.Some? && found.value.contractId == id && Matches(found.value, operations[id])
  {
    assert HasRoot(registry, id);
    var i :| 0 <= i < |registry| && registry[i].contractId == id;
    assert RootOk(registry[i], operations) && registry[i] in registry;
    var found := FindRoot(registry, operations[id].schemaId.value).value;
    var j :| 0 <= j < |registry| && registry[j] == found;
    assert RootOk(registry[j], operations);
    assert i == j;
  }

  lemma RootIsFound(registry: seq<Root>, operations: Operations, root: Root)
    requires RegistryOk(registry, operations) && root in registry
    ensures FindRoot(registry, root.id) == Some(root)
    ensures root.contractId in operations && Matches(root, operations[root.contractId])
  {
    var i :| 0 <= i < |registry| && registry[i] == root;
    var found := FindRoot(registry, root.id);
    assert found.Some?;
    var j :| 0 <= j < |registry| && registry[j] == found.value;
    assert RootOk(registry[i], operations);
    assert i == j;
  }
}
