/** The schema roots that declarations are projected to, and what the registry audit asks of the declarations. */
module SchemaProjection {
  import opened Wrappers
  import opened Catalogue
  import opened Permutations
  import opened Topology
  import opened ProjectionSoundness
  import opened SurfaceAudit
  import opened SchemaRegistry
  import opened DeclaredAudit

  /** The projection of a schema root panics on a child that lacks a part of it. */
  predicate HasRootParts(c: ContractDecl) {
    c.schemaId.Some? ==> c.artifactPath.Some? && c.validFixture.Some? && c.invalidFixture.Some?
  }

  ghost predicate AllHaveRootParts(ops: seq<OperationDecl>) {
    forall op, c :: Declares(ops, op, c) ==> HasRootParts(c)
  }

  /** `ContractDeclaration::schema_root`. */
  function RootOf(c: ContractDecl): Root
    requires c.schemaId.Some? && HasRootParts(c)
  {
    Root(c.schemaId.value, c.artifactPath.value, c.id, c.direction, c.strictness, c.validFixture.value,
         c.invalidFixture.value)
  }

  /** The root of a child is the child's own, part by part. */
  lemma RootOfChild(c: ContractDecl)
    requires c.schemaId.Some? && HasRootParts(c)
    ensures var root := RootOf(c);
            && c.schemaId == Some(root.id) && c.artifactPath == Some(root.artifactPath) && root.contractId == c.id
            && root.direction == c.direction && root.strictness == c.strictness
            && c.validFixture == Some(root.validFixture) && c.invalidFixture == Some(root.invalidFixture)
  {
  }

  function RootsOf(cs: seq<ContractDecl>): seq<Root>
    requires forall c :: c in cs ==> HasRootParts(c)
  {
    if cs == [] then []
    else
      assert cs[0] in cs;
      (if cs[0].schemaId.Some? then [RootOf(cs[0])] else []) + RootsOf(cs[1..])
  }

  /** `CatalogProjection::schemas`. */
  function Schemas(ops: seq<OperationDecl>): seq<Root>
    requires AllHaveRootParts(ops)
  {
    if ops == [] then []
    else
      assert forall c :: c in ops[0].contracts ==> Declares(ops, ops[0], c);
      assert forall op, c :: Declares(ops[1..], op, c) ==> Declares(ops, op, c);
      RootsOf(ops[0].contracts) + Schemas(ops[1..])
  }

  /** Roots declared elsewhere belong to the contracts declared elsewhere. */
  ghost predicate ExtraRootsMatch(extras: seq<Contract>, extraRoots: seq<Root>) {
    && (forall root :: root in extraRoots ==> exists x :: x in extras && x.id == root.contractId && Matches(root, x))
    && (forall x :: x in extras && x.schemaId.Some? && x.fixture.Some? ==>
      exists root :: root in extraRoots && root.contractId == x.id)
  }

  ghost predicate RootsDistinct(registry: seq<Root>) {
    forall i, j :: 0 <= i < j < |registry| ==>
      registry[i].id != registry[j].id && registry[i].artifactPath != registry[j].artifactPath
  }

  /** Schema ids and artifact paths are distinct over all sources. */
  ghost predicate RootsDeclared(ops: seq<OperationDecl>, extras: seq<Contract>, extraRoots: seq<Root>)
    requires AllHaveRootParts(ops)
  {
    RootsDistinct(Schemas(ops) + extraRoots) && ExtraRootsMatch(extras, extraRoots)
  }

  lemma {:induction false} RootIsOfChild(cs: seq<ContractDecl>, root: Root)
    requires forall c :: c in cs ==> HasRootParts(c)
    ensures root in RootsOf(cs) <==> exists c :: c in cs && c.schemaId.Some? && root == RootOf(c)
    decreases |cs|
  {
    if cs != [] {
      RootIsOfChild(cs[1..], root);
      assert cs == [cs[0]] + cs[1..];
    }
  }

  lemma {:induction false} RootIsProjected(ops: seq<OperationDecl>, root: Root)
    requires AllHaveRootParts(ops)
    ensures root in Schemas(ops) <==> exists op, c :: Declares(ops, op, c) && c.schemaId.Some? && root == RootOf(c)
    decreases |ops|
  {
    if ops != [] {
      assert forall c :: c in ops[0].contracts ==> Declares(ops, ops[0], c);
      assert forall op, c :: Declares(ops[1..], op, c) ==> Declares(ops, op, c);
      RootIsOfChild(ops[0].contracts, root);
      RootIsProjected(ops[1..], root);
      if op, c :| Declares(ops, op, c) && c.schemaId.Some? && root == RootOf(c) {
        assert op == ops[0] || Declares(ops[1..], op, c);
      }
    }
  }

  lemma DistinctRootsKept(a: seq<Root>, b: seq<Root>)
    requires multiset(a) == multiset(b) && RootsDistinct(a)
    ensures RootsDistinct(b)
  {
    var id, path := (root: Root) => root.id, (root: Root) => root.artifactPath;
    assert DistinctBy(a, id) && DistinctBy(a, path);
    DistinctByTransfers(a, b, id);
    DistinctByTransfers(a, b, path);
    forall i, j | 0 <= i < j < |b| ensures b[i].id != b[j].id && b[i].artifactPath != b[j].artifactPath {
      assert id(b[i]) != id(b[j]) && path(b[i]) != path(b[j]);
    }
  }

  /** A declared child and a contract declared elsewhere never share an id. */
  lemma ChildIsNoExtra(ops: seq<OperationDecl>, extras: seq<Contract>, op: OperationDecl, c: ContractDecl, x: Contract)
    requires DistinctIds(Contracts(ops) + extras) && Declares(ops, op, c) && x in extras
    ensures c.id != x.id
  {
    var all := Contracts(ops) + extras;
    ProjectedContracts(ops, ContractIn(op, c));
    var i :| 0 <= i < |Contracts(ops)| && Contracts(ops)[i] == ContractIn(op, c);
    var j :| 0 <= j < |extras| && extras[j] == x;
    assert all[i] == ContractIn(op, c) && all[|Contracts(ops)| + j] == x;
  }

  /** The root of a child is its contract's by construction. */
  lemma ProjectedRootOk(ops: seq<OperationDecl>, extras: seq<Contract>, operations: Operations, op: OperationDecl,
                        c: ContractDecl)
    requires Represents(operations, ops, extras) && Declares(ops, op, c) && c.schemaId.Some? && HasRootParts(c)
    ensures RootOk(RootOf(c), operations)
  {
    assert IsContract(ops, extras, ContractIn(op, c));
  }

  lemma ExtraRootOkIff(ops: seq<OperationDecl>, extras: seq<Contract>, extraRoots: seq<Root>, operations: Operations,
                       root: Root)
    requires AllHaveRootParts(ops) && Represents(operations, ops, extras)
    requires RootsDistinct(Schemas(ops) + extraRoots) && root in extraRoots
    ensures RootOk(root, operations) <==> exists x :: x in extras && x.id == root.contractId && Matches(root, x)
  {
    if RootOk(root, operations) {
      var x := operations[root.contractId];
      assert IsContract(ops, extras, x);
      if x !in extras {
        var op, c :| Declares(ops, op, c) && x == ContractIn(op, c);
        RootIsProjected(ops, RootOf(c));
        TwoSources(Schemas(ops), extraRoots, RootOf(c), root);
      }
    }
    if x :| x in extras && x.id == root.contractId && Matches(root, x) {
      assert IsContract(ops, extras, x);
    }
  }

  lemma TwoSources(a: seq<Root>, b: seq<Root>, root: Root, other: Root)
    requires RootsDistinct(a + b) && root in a && other in b
    ensures root.id != other.id
  {
    var i :| 0 <= i < |a| && a[i] == root;
    var j :| 0 <= j < |b| && b[j] == other;
    assert (a + b)[i] == root && (a + b)[|a| + j] == other;
  }

  lemma HasRootByMember(registry: seq<Root>, id: string)
    ensures HasRoot(registry, id) <==> exists root :: root in registry && root.contractId == id
  {
    if root :| root in registry && root.contractId == id {
      var i :| 0 <= i < |registry| && registry[i] == root;
    }
  }

  /** A contract with a schema has its root: a declared child always, a contract declared elsewhere if it has one. */
  lemma CoveredIff(ops: seq<OperationDecl>, extras: seq<Contract>, extraRoots: seq<Root>, registry: seq<Root>,
                   x: Contract)
    requires AllHaveRootParts(ops) && DistinctIds(Contracts(ops) + extras)
    requires multiset(registry) == multiset(Schemas(ops) + extraRoots)
    requires IsContract(ops, extras, x) && x.schemaId.Some?
    ensures HasRoot(registry, x.id) <==> x !in extras || exists root :: root in extraRoots && root.contractId == x.id
  {
    HasRootByMember(registry, x.id);
    if x in extras {
      if root :| root in registry && root.contractId == x.id {
        SameElements(registry, Schemas(ops) + extraRoots, root);
        RootIsProjected(ops, root);
        if root in Schemas(ops) {
          var op, c :| Declares(ops, op, c) && c.schemaId.Some? && root == RootOf(c);
          ChildIsNoExtra(ops, extras, op, c, x);
        }
      }
      if root :| root in extraRoots && root.contractId == x.id {
        SameElements(registry, Schemas(ops) + extraRoots, root);
      }
    } else {
      var op, c :| Declares(ops, op, c) && x == ContractIn(op, c);
      RootIsProjected(ops, RootOf(c));
      SameElements(registry, Schemas(ops) + extraRoots, RootOf(c));
    }
  }

  /** The registry audit, in terms of the declarations. */
  lemma RegistryIff(ops: seq<OperationDecl>, extras: seq<Contract>, extraRoots: seq<Root>, registry: seq<Root>,
                    operations: Operations)
    requires AllHaveRootParts(ops) && DistinctIds(Contracts(ops) + extras) && Represents(operations, ops, extras)
    requires multiset(registry) == multiset(Schemas(ops) + extraRoots)
    ensures RegistryOk(registry, operations) <==> RootsDeclared(ops, extras, extraRoots)
  {
    if RootsDistinct(registry) {
      DistinctRootsKept(registry, Schemas(ops) + extraRoots);
    }
    if RootsDistinct(Schemas(ops) + extraRoots) {
      DistinctRootsKept(Schemas(ops) + extraRoots, registry);
      RootsOkIff(ops, extras, extraRoots, registry, operations);
      AllCoveredIff(ops, extras, extraRoots, registry, operations);
    }
  }

  lemma RootsOkIff(ops: seq<OperationDecl>, extras: seq<Contract>, extraRoots: seq<Root>, registry: seq<Root>,
                   operations: Operations)
    requires AllHaveRootParts(ops) && Represents(operations, ops, extras) && RootsDistinct(Schemas(ops) + extraRoots)
    requires multiset(registry) == multiset(Schemas(ops) + extraRoots)
    ensures (forall i :: 0 <= i < |registry| ==> RootOk(registry[i], operations)) <==>
            forall root :: root in extraRoots ==> exists x :: x in extras && x.id == root.contractId && Matches(root, x)
  {
    forall root ensures root in registry <==> root in Schemas(ops) || root in extraRoots {
      SameElements(registry, Schemas(ops) + extraRoots, root);
    }
    forall root | root in Schemas(ops) ensures RootOk(root, operations) {
      RootIsProjected(ops, root);
      var op, c :| Declares(ops, op, c) && c.schemaId.Some? && root == RootOf(c);
      ProjectedRootOk(ops, extras, operations, op, c);
    }
    forall root | root in extraRoots
      ensures RootOk(root, operations) <==> exists x :: x in extras && x.id == root.contractId && Matches(root, x)
    {
      ExtraRootOkIff(ops, extras, extraRoots, operations, root);
    }
    AllRootsIff(registry, operations);
  }

  lemma AllRootsIff(registry: seq<Root>, operations: Operations)
    ensures (forall i :: 0 <= i < |registry| ==> RootOk(registry[i], operations)) <==>
            forall root :: root in registry ==> RootOk(root, operations)
  {
    if forall root :: root in registry ==> RootOk(root, operations) {
      forall i | 0 <= i < |registry| ensures RootOk(registry[i], operations) {
        assert registry[i] in registry;
      }
    }
  }

  lemma AllCoveredIff(ops: seq<OperationDecl>, extras: seq<Contract>, extraRoots: seq<Root>, registry: seq<Root>,
                      operations: Operations)
    requires AllHaveRootParts(ops) && DistinctIds(Contracts(ops) + extras) && Represents(operations, ops, extras)
    requires multiset(registry) == multiset(Schemas(ops) + extraRoots)
    ensures (forall id :: id in SchemaIds(operations) ==> HasRoot(registry, id)) <==>
            forall x :: x in extras && x.schemaId.Some? && x.fixture.Some? ==>
              exists root :: root in extraRoots && root.contractId == x.id
  {
    forall x | IsContract(ops, extras, x) && x.schemaId.Some?
      ensures HasRoot(registry, x.id) <==> x !in extras || exists root :: root in extraRoots && root.contractId == x.id
    {
      CoveredIff(ops, extras, extraRoots, registry, x);
    }
    forall x | x in extras && x.schemaId.Some? && x.fixture.Some?
      ensures IsContract(ops, extras, x) && x.id in SchemaIds(operations)
    {
    }
    forall id | id in SchemaIds(operations) ensures IsContract(ops, extras, operations[id]) && operations[id].id == id {
    }
  }
}
