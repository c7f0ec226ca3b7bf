/** The generated Web file set and the list of it that the manifest carries. */
module WebManifest {
  import opened Wrappers
  import opened Bytes
  import opened StringOrder
  import opened Permutations
  import opened Catalogue
  import opened SchemaRegistry
  import opened InventoryAudit
  import opened Selection

  /** `OperationManifest`. */
  datatype OperationEntry = OperationEntry(
    id: string, verb: HttpMethod, path: string, obligations: Obligations, sharedComponents: seq<string>)

  /** `ContractManifest`. */
  datatype ContractEntry = ContractEntry(
    id: string, surface: Surface, direction: Direction, strictness: Strictness, schemaId: Option<string>,
    schemaPath: Option<string>, validFixture: Option<string>, invalidFixture: Option<string>)

  /** What a generated file is made of; its text is produced by a library or a template. */
  datatype Content =
    | Schema(rootId: string) | Fixture(bytes: seq<Byte>) | ContractModule(contractId: string, rootId: string)
    | Manifest(operations: seq<OperationEntry>, contracts: seq<ContractEntry>, generated: seq<string>)
    | OperationsJson(operations: seq<OperationEntry>) | ContractsJson(contracts: seq<ContractEntry>)
    | Runtime | TestOnly(contractIds: seq<string>) | OperationsModule(operations: seq<OperationEntry>)
    | SseModule(rootId: string) | Index
    | Hashes(hashed: map<string, Content>)

  datatype Generated = Generated(files: map<string, Content>, generated: seq<string>)

  datatype GenerateError =
    | Unresolved(reason: SelectionError) | NoRoot | UnreadableFixture | DuplicatePath | MissingSseRoot

  /** Letters and digits stay, anything else becomes a dash. */
  function SlugChar(c: char): char {
    if 'a' <= c <= 'z' || 'A' <= c <= 'Z' || '0' <= c <= '9' then c else '-'
  }

  /** `safe_slug`. */
  function Slug(id: string): string {
    if id == [] then [] else [SlugChar(id[0])] + Slug(id[1..])
  }

  function ModulePath(slug: string): string { "contracts/" + slug + ".ts" }

  function SchemaPath(slug: string): string { "schemas/" + slug + ".schema.json" }

  function ValidPath(slug: string): string { "fixtures/" + slug + ".valid.json" }

  function InvalidPath(slug: string): string { "fixtures/" + slug + ".invalid.json" }

  /** The paths of one contract with a schema, in the order of the manifest. */
  function Paths(c: Contract): seq<string> {
    if c.schemaId.None? then []
    else [ModulePath(Slug(c.id)), SchemaPath(Slug(c.id)), ValidPath(Slug(c.id)), InvalidPath(Slug(c.id))]
  }

  function ContractPaths(contracts: seq<Contract>): seq<string> {
    if contracts == [] then [] else ContractPaths(contracts[..|contracts| - 1]) + Paths(contracts[|contracts| - 1])
  }

  /** The entry of a contract; the paths of its files are those of its slug. */
  function EntryFor(c: Contract): ContractEntry {
    var slug := Slug(c.id);
    if c.schemaId.None? then ContractEntry(c.id, c.surface, c.direction, c.strictness, None, None, None, None)
    else ContractEntry(c.id, c.surface, c.direction, c.strictness, c.schemaId, Some(SchemaPath(slug)),
                       Some(ValidPath(slug)), Some(InvalidPath(slug)))
  }

  function OperationFor(e: Endpoint): OperationEntry {
    OperationEntry(e.operationId, e.verb, e.path, e.obligations, e.sharedComponents)
  }

  function Operations(endpoints: seq<Endpoint>): (operations: seq<OperationEntry>)
    ensures |operations| == |endpoints|
    ensures forall i :: 0 <= i < |endpoints| ==> operations[i] == OperationFor(endpoints[i])
  {
    seq(|endpoints|, i requires 0 <= i < |endpoints| => OperationFor(endpoints[i]))
  }

  function ContractEntries(contracts: seq<Contract>): (entries: seq<ContractEntry>)
    ensures |entries| == |contracts|
    ensures forall i :: 0 <= i < |contracts| ==> entries[i] == EntryFor(contracts[i])
  {
    seq(|contracts|, i requires 0 <= i < |contracts| => EntryFor(contracts[i]))
  }

  /** The contracts that have a module, in order. */
  function SchemaContractIds(contracts: seq<Contract>): seq<string> {
    if contracts == [] then []
    else
      var last := contracts[|contracts| - 1];
      SchemaContractIds(contracts[..|contracts| - 1]) + if last.schemaId.Some? then [last.id] else []
  }

  const SUMMARIES :=
    ["manifest.json", "operations.json", "contracts.json", "runtime.ts", "test-only.ts", "operations.ts", "sse.ts",
     "index.ts"]
  const HASH_FILE := "generated.sha256"

  /** Two contracts with schemas are told apart by their slugs. */
  ghost predicate SlugsDistinct(contracts: seq<Contract>) {
    forall i, j :: 0 <= i < j < |contracts| && contracts[i].schemaId.Some? && contracts[j].schemaId.Some? ==>
      Slug(contracts[i].id) != Slug(contracts[j].id)
  }

  ghost predicate AllFound(contracts: seq<Contract>, roots: seq<Root>) {
    forall k :: 0 <= k < |contracts| && contracts[k].schemaId.Some? ==>
      FindRoot(roots, contracts[k].schemaId.value).Some?
  }

  /** The schema root of a contract is registered and its fixtures can be read. */
  predicate Sourced(c: Contract, roots: seq<Root>, fixtures: map<string, seq<Byte>>) {
    c.schemaId.Some? ==>
      var root := FindRoot(roots, c.schemaId.value);
      root.Some? && root.value.validFixture in fixtures && root.value.invalidFixture in fixtures
  }

  /** The four files of a contract, with their own contents. */
  predicate HasFilesOf(files: map<string, Content>, c: Contract, roots: seq<Root>, fixtures: map<string, seq<Byte>>)
    requires Sourced(c, roots, fixtures)
  {
    c.schemaId.Some? ==>
      var root := FindRoot(roots, c.schemaId.value).value;
      var slug := Slug(c.id);
      && SchemaPath(slug) in files && files[SchemaPath(slug)] == Schema(root.id)
      && ValidPath(slug) in files && files[ValidPath(slug)] == Fixture(fixtures[root.validFixture])
      && InvalidPath(slug) in files && files[InvalidPath(slug)] == Fixture(fixtures[root.invalidFixture])
      && ModulePath(slug) in files && files[ModulePath(slug)] == ContractModule(c.id, root.id)
  }

  // ----- paths never meet, but through equal slugs

  lemma SameStem(prefix: string, a: string, b: string, suffix: string)
    requires prefix + a + suffix == prefix + b + suffix
    ensures a == b
  {
    assert |a| == |b|;
    assert (prefix + a + suffix)[|prefix|..|prefix| + |a|] == a;
    assert (prefix + b + suffix)[|prefix|..|prefix| + |b|] == b;
  }

  lemma ModuleFacts(slug: string)
    ensures ModulePath(slug)[0] == 'c' && ModulePath(slug)[9] == '/'
  {
  }

  lemma SchemaFacts(slug: string)
    ensures SchemaPath(slug)[0] == 's' && SchemaPath(slug)[7] == '/'
  {
  }

  /** The eleventh character from the end. */
  function FromEnd(s: string): char
    requires |s| >= 11
  {
    s[|s| - 11]
  }

  lemma ValidFacts(slug: string)
    ensures |ValidPath(slug)| >= 11 && ValidPath(slug)[0] == 'f' && ValidPath(slug)[8] == '/'
            && FromEnd(ValidPath(slug)) == '.'
  {
    var head := "fixtures/" + slug;
    assert ValidPath(slug)[|head|] == '.';
  }

  lemma InvalidFacts(slug: string)
    ensures |InvalidPath(slug)| >= 11 && InvalidPath(slug)[0] == 'f' && InvalidPath(slug)[8] == '/'
            && FromEnd(InvalidPath(slug)) == 'n'
  {
    var head := "fixtures/" + slug;
    assert InvalidPath(slug)[|head| + 2] == 'n';
  }

  lemma PathsMeet(c: Contract, d: Contract, i: nat, j: nat)
    requires c.schemaId.Some? && d.schemaId.Some? && i < 4 && j < 4
    ensures Paths(c)[i] == Paths(d)[j] <==> i == j && Slug(c.id) == Slug(d.id)
  {
    var s, t := Slug(c.id), Slug(d.id);
    ModuleFacts(s);
    ModuleFacts(t);
    SchemaFacts(s);
    SchemaFacts(t);
    ValidFacts(s);
    ValidFacts(t);
    InvalidFacts(s);
    InvalidFacts(t);
    if Paths(c)[i] == Paths(d)[j] {
      assert i == j;
      if i == 0 {
        SameStem("contracts/", s, t, ".ts");
      } else if i == 1 {
        SameStem("schemas/", s, t, ".schema.json");
      } else if i == 2 {
        SameStem("fixtures/", s, t, ".valid.json");
      } else {
        SameStem("fixtures/", s, t, ".invalid.json");
      }
    }
  }

  lemma PathHasSlash(c: Contract, i: nat)
    requires c.schemaId.Some? && i < 4
    ensures '/' in Paths(c)[i]
  {
    var s := Slug(c.id);
    ModuleFacts(s);
    SchemaFacts(s);
    ValidFacts(s);
    InvalidFacts(s);
  }

  lemma {:induction false} PathOf(contracts: seq<Contract>, path: string)
    ensures path in ContractPaths(contracts) <==> exists k :: 0 <= k < |contracts| && path in Paths(contracts[k])
    decreases |contracts|
  {
    if contracts != [] {
      var init, c := contracts[..|contracts| - 1], contracts[|contracts| - 1];
      PathOf(init, path);
      assert contracts == init + [c];
    }
  }

  /** The paths of the contracts are distinct exactly when their slugs are. */
  lemma {:induction false} PathsDistinctIff(contracts: seq<Contract>)
    ensures Distinct(ContractPaths(contracts)) <==> SlugsDistinct(contracts)
    decreases |contracts|
  {
    if contracts != [] {
      var init, c := contracts[..|contracts| - 1], contracts[|contracts| - 1];
      PathsDistinctIff(init);
      assert contracts[..|init| + 1] == contracts;
      SlugsNext(contracts, |init|);
      NewPathsIff(init, c);
      DistinctBoth(ContractPaths(init), Paths(c));
      OwnPathsDistinct(c);
    }
  }

  ghost predicate SlugIsNew(contracts: seq<Contract>, c: Contract) {
    c.schemaId.Some? ==> forall k :: 0 <= k < |contracts| && contracts[k].schemaId.Some? ==>
      Slug(contracts[k].id) != Slug(c.id)
  }

  lemma OwnPathsDistinct(c: Contract)
    ensures Distinct(Paths(c))
  {
    forall i, j | 0 <= i < j < |Paths(c)| ensures Paths(c)[i] != Paths(c)[j] {
      PathsMeet(c, c, i, j);
    }
  }

  /** A contract's paths are all new, or all taken. */
  lemma NewPathsIff(contracts: seq<Contract>, c: Contract)
    ensures SlugIsNew(contracts, c) <==> forall x :: x in Paths(c) ==> x !in ContractPaths(contracts)
    ensures !SlugIsNew(contracts, c) ==> SchemaPath(Slug(c.id)) in ContractPaths(contracts)
  {
    if SlugIsNew(contracts, c) {
      forall x | x in Paths(c) ensures x !in ContractPaths(contracts) {
        PathOf(contracts, x);
        if x in ContractPaths(contracts) {
          var k :| 0 <= k < |contracts| && x in Paths(contracts[k]);
          var i :| 0 <= i < |Paths(c)| && Paths(c)[i] == x;
          var j :| 0 <= j < |Paths(contracts[k])| && Paths(contracts[k])[j] == x;
          PathsMeet(c, contracts[k], i, j);
          assert false;
        }
      }
    } else {
      var k :| 0 <= k < |contracts| && contracts[k].schemaId.Some? && Slug(contracts[k].id) == Slug(c.id);
      var x := SchemaPath(Slug(c.id));
      assert x == Paths(c)[1] && x == Paths(contracts[k])[1];
      PathOf(contracts, x);
    }
  }

  // ----- the program

  function Itself(s: string): string { s }

  const FIXED_NAMES :=
    ["contracts.json", "generated.sha256", "index.ts", "manifest.json", "operations.json", "operations.ts",
                        "runtime.ts", "sse.ts", "test-only.ts"]

  /** The names of every generated file, in no particular order. */
  function AllNames(contracts: seq<Contract>): seq<string> {
    FIXED_NAMES + ContractPaths(contracts)
  }

  lemma Rearranged(s: seq<string>, h: string, t: seq<string>, x: string)
    requires |s| == 8 && t == [s[2], h, s[7], s[0], s[1], s[5], s[3], s[6], s[4]]
    ensures x in t <==> x in s || x == h
  {
    if x in s {
      var i :| 0 <= i < 8 && s[i] == x;
      assert t[[3, 4, 0, 6, 8, 5, 7, 2][i]] == x;
    }
    if x == h {
      assert t[1] == x;
    }
  }

  predicate EntriesOf(entries: seq<ContractEntry>, contracts: seq<Contract>) {
    |entries| == |contracts| && forall i :: 0 <= i < |contracts| ==> entries[i] == EntryFor(contracts[i])
  }

  lemma Associate(a: seq<string>, b: seq<string>, c: seq<string>)
    ensures a + (b + c) == a + b + c
  {
  }

  /** The round of `generated_source_names` for one entry. */
  method NamesOfEntry(before: seq<string>, entry: ContractEntry, ghost c: Contract) returns (names: seq<string>)
    requires entry == EntryFor(c)
    ensures names == before + Paths(c)
  {
    names := before;
    if entry.schemaId.Some? {
      names := names + [ModulePath(Slug(entry.id))];
    }
    if entry.schemaPath.Some? {
      names := names + [entry.schemaPath.value];
    }
    if entry.validFixture.Some? {
      names := names + [entry.validFixture.value];
    }
    if entry.invalidFixture.Some? {
      names := names + [entry.invalidFixture.value];
    }
  }

  /** `generated_source_names`, up to its final sort. */
  method CollectNames(entries: seq<ContractEntry>, ghost contracts: seq<Contract>) returns (names: seq<string>)
    requires EntriesOf(entries, contracts)
    ensures names == AllNames(contracts)
  {
    names := FIXED_NAMES;
    for k := 0 to |entries|
      invariant names == FIXED_NAMES + ContractPaths(contracts[..k])
    {
      names := NamesOfEntry(names, entries[k], contracts[k]);
      NextPaths(contracts, k);
      Associate(FIXED_NAMES, ContractPaths(contracts[..k]), Paths(contracts[k]));
    }
    assert contracts[..|contracts|] == contracts;
  }

  lemma NextPaths(contracts: seq<Contract>, k: nat)
    requires k < |contracts|
    ensures ContractPaths(contracts[..k + 1]) == ContractPaths(contracts[..k]) + Paths(contracts[k])
  {
    assert contracts[..k + 1][..k] == contracts[..k];
  }

  lemma SummariesAreFixed(x: string)
    ensures x in FIXED_NAMES <==> x in SUMMARIES || x == HASH_FILE
  {
    Rearranged(SUMMARIES, HASH_FILE, FIXED_NAMES, x);
  }

  lemma FixedNamesFacts()
    ensures Distinct(FIXED_NAMES)
    ensures forall x :: x in FIXED_NAMES ==> '/' !in x
  {
    var s := FIXED_NAMES;
    assert |s[0]| == 14 && |s[1]| == 16 && |s[2]| == 8 && |s[3]| == 13 && |s[4]| == 15 && |s[5]| == 13 && |s[6]| == 10
      && |s[7]| == 6 && |s[8]| == 12;
    assert s[3][0] == 'm' && s[5][0] == 'o';
  }

  lemma SummariesDistinct()
    ensures Distinct(SUMMARIES) && HASH_FILE !in SUMMARIES
  {
    var s := SUMMARIES;
    assert |s[0]| == 13 && |s[1]| == 15 && |s[2]| == 14 && |s[3]| == 10 && |s[4]| == 12 && |s[5]| == 13 && |s[6]| == 6
      && |s[7]| == 8;
    assert s[0][0] == 'm' && s[5][0] == 'o' && |HASH_FILE| == 16;
  }

  lemma NamesDistinct(contracts: seq<Contract>)
    requires SlugsDistinct(contracts)
    ensures Distinct(AllNames(contracts))
  {
    PathsDistinctIff(contracts);
    FixedNamesFacts();
    forall x | x in ContractPaths(contracts) ensures x !in FIXED_NAMES {
      SlashInPath(contracts, x);
    }
    DistinctBoth(FIXED_NAMES, ContractPaths(contracts));
  }

  lemma SlashInPath(contracts: seq<Contract>, x: string)
    requires x in ContractPaths(contracts)
    ensures '/' in x
  {
    PathOf(contracts, x);
    var k :| 0 <= k < |contracts| && x in Paths(contracts[k]);
    var i :| 0 <= i < |Paths(contracts[k])| && Paths(contracts[k])[i] == x;
    PathHasSlash(contracts[k], i);
  }

  /** `insert_generated_file`. */
  method InsertGeneratedFile(files: map<string, Content>, path: string, content: Content)
    returns (r: Result<map<string, Content>, GenerateError>)
    ensures r.Ok? <==> path !in files
    ensures r.Err? ==> r.error == DuplicatePath
    ensures r.Ok? ==> r.value == files[path := content]
  {
    if path in files {
      return Err(DuplicatePath);
    }
    return Ok(files[path := content]);
  }

  ghost predicate KeysAre(files: map<string, Content>, paths: seq<string>) {
    forall x :: x in files <==> x in paths
  }

  /** The round of `expected_files` for one contract with a schema. */
  method AddContract(files: map<string, Content>, c: Contract, roots: seq<Root>, fixtures: map<string, seq<Byte>>,
                     ghost done: seq<Contract>) returns (r: Result<map<string, Content>, GenerateError>)
    requires c.schemaId.Some? && KeysAre(files, ContractPaths(done))
    ensures r.Ok? <==> Sourced(c, roots, fixtures) && SlugIsNew(done, c)
    ensures r.Err? ==> !r.error.Unresolved? && (r.error.NoRoot? ==> FindRoot(roots, c.schemaId.value).None?)
    ensures r.Ok? ==>
              && KeysAre(r.value, ContractPaths(done) + Paths(c))
              && HasFilesOf(r.value, c, roots, fixtures)
              && Includes(files, r.value)
  {
    NewPathsIff(done, c);
    OwnPathsDistinct(c);
    var root := FindRoot(roots, c.schemaId.value);
    if root.None? {
      return Err(NoRoot);
    }
    if root.value.validFixture !in fixtures || root.value.invalidFixture !in fixtures {
      return Err(UnreadableFixture);
    }
    var slug := Slug(c.id);
    var paths := Paths(c);
    assert paths[0] == ModulePath(slug) && paths[1] == SchemaPath(slug) && paths[2] == ValidPath(slug)
      && paths[3] == InvalidPath(slug);
    r := InsertGeneratedFile(files, SchemaPath(slug), Schema(root.value.id));
    if r.Err? {
      return;
    }
    r := InsertGeneratedFile(r.value, ValidPath(slug), Fixture(fixtures[root.value.validFixture]));
    if r.Err? {
      return;
    }
    r := InsertGeneratedFile(r.value, InvalidPath(slug), Fixture(fixtures[root.value.invalidFixture]));
    if r.Err? {
      return;
    }
    r := InsertGeneratedFile(r.value, ModulePath(slug), ContractModule(c.id, root.value.id));
  }

  ghost predicate Includes(files: map<string, Content>, more: map<string, Content>) {
    forall x :: x in files ==> x in more && more[x] == files[x]
  }

  lemma FilesKept(files: map<string, Content>, more: map<string, Content>, c: Contract, roots: seq<Root>,
                  fixtures: map<string, seq<Byte>>)
    requires Includes(files, more) && Sourced(c, roots, fixtures) && HasFilesOf(files, c, roots, fixtures)
    ensures HasFilesOf(more, c, roots, fixtures)
  {
  }

  /** The files of the first `k` contracts are there. */
  ghost predicate Added(files: map<string, Content>, contracts: seq<Contract>, k: nat, roots: seq<Root>,
                        fixtures: map<string, seq<Byte>>)
    requires k <= |contracts|
  {
    forall m :: 0 <= m < k ==>
      Sourced(contracts[m], roots, fixtures) && HasFilesOf(files, contracts[m], roots, fixtures)
  }

  lemma AddedKept(files: map<string, Content>, more: map<string, Content>, contracts: seq<Contract>, k: nat,
                  roots: seq<Root>, fixtures: map<string, seq<Byte>>)
    requires k <= |contracts| && Includes(files, more) && Added(files, contracts, k, roots, fixtures)
    ensures Added(more, contracts, k, roots, fixtures)
  {
    forall m | 0 <= m < k ensures HasFilesOf(more, contracts[m], roots, fixtures) {
      FilesKept(files, more, contracts[m], roots, fixtures);
    }
  }

  lemma SlugsNext(contracts: seq<Contract>, k: nat)
    requires k < |contracts|
    ensures SlugsDistinct(contracts[..k + 1]) <==>
            SlugsDistinct(contracts[..k]) && SlugIsNew(contracts[..k], contracts[k])
    ensures !SlugIsNew(contracts[..k], contracts[k]) ==> !SlugsDistinct(contracts)
  {
  }

  datatype Collected = Collected(files: map<string, Content>, entries: seq<ContractEntry>, modules: seq<string>)

  /** The contract loop of `expected_files`. */
  method AddContracts(contracts: seq<Contract>, roots: seq<Root>, fixtures: map<string, seq<Byte>>)
    returns (r: Result<Collected, GenerateError>)
    ensures r.Ok? <==>
            SlugsDistinct(contracts) && forall k :: 0 <= k < |contracts| ==> Sourced(contracts[k], roots, fixtures)
    ensures r.Ok? ==>
              && KeysAre(r.value.files, ContractPaths(contracts))
              && Added(r.value.files, contracts, |contracts|, roots, fixtures)
              && EntriesOf(r.value.entries, contracts) && r.value.modules == SchemaContractIds(contracts)
    ensures r.Err? ==> !r.error.Unresolved? && (r.error.NoRoot? ==> !AllFound(contracts, roots))
  {
    var files: map<string, Content>, entries, modules := map[], [], [];
    for k := 0 to |contracts|
      invariant KeysAre(files, ContractPaths(contracts[..k])) && SlugsDistinct(contracts[..k])
      invariant Added(files, contracts, k, roots, fixtures)
      invariant EntriesOf(entries, contracts[..k]) && modules == SchemaContractIds(contracts[..k])
    {
      var c := contracts[k];
      NextPaths(contracts, k);
      SlugsNext(contracts, k);
      EntriesNext(entries, contracts, k);
      if c.schemaId.Some? {
        var added := AddContract(files, c, roots, fixtures, contracts[..k]);
        if added.Err? {
          return Err(added.error);
        }
        AddedKept(files, added.value, contracts, k, roots, fixtures);
        files, modules := added.value, modules + [c.id];
      }
      entries := entries + [EntryFor(c)];
    }
    assert contracts[..|contracts|] == contracts;
    return Ok(Collected(files, entries, modules));
  }

  lemma EntriesNext(entries: seq<ContractEntry>, contracts: seq<Contract>, k: nat)
    requires k < |contracts| && EntriesOf(entries, contracts[..k])
    ensures EntriesOf(entries + [EntryFor(contracts[k])], contracts[..k + 1])
    ensures SchemaContractIds(contracts[..k + 1]) ==
            SchemaContractIds(contracts[..k]) + if contracts[k].schemaId.Some? then [contracts[k].id] else []
  {
    assert contracts[..k + 1][..k] == contracts[..k];
  }

  /** The contents of the files beside those of the contracts, in the order of `SUMMARIES`. */
  ghost predicate SummariesHold(files: map<string, Content>, contents: seq<Content>, n: nat)
    requires n <= |contents| && n <= |SUMMARIES|
  {
    forall k :: 0 <= k < n ==> SUMMARIES[k] in files && files[SUMMARIES[k]] == contents[k]
  }

  /** The files beside those of the contracts. */
  method AddSummaries(files: map<string, Content>, contents: seq<Content>, ghost contracts: seq<Contract>)
    returns (all: map<string, Content>)
    requires KeysAre(files, ContractPaths(contracts)) && |contents| == 8
    ensures KeysAre(all, ContractPaths(contracts) + SUMMARIES)
    ensures Includes(files, all) && SummariesHold(all, contents, 8)
  {
    SummariesDistinct();
    SummariesAreNew(files, contracts);
    all := files;
    for k := 0 to 8
      invariant forall x :: x in all <==> x in files || x in SUMMARIES[..k]
      invariant Includes(files, all) && SummariesHold(all, contents, k)
    {
      var name := SUMMARIES[k];
      assert name in SUMMARIES && name !in all;
      var r := InsertGeneratedFile(all, name, contents[k]);
      all := r.value;
      assert SUMMARIES[..k + 1] == SUMMARIES[..k] + [name];
    }
    assert SUMMARIES[..8] == SUMMARIES;
  }

  lemma SummariesAreNew(files: map<string, Content>, contracts: seq<Contract>)
    requires KeysAre(files, ContractPaths(contracts))
    ensures forall x :: x in SUMMARIES ==> x !in files
  {
    forall x | x in SUMMARIES ensures x !in files {
      SummariesAreFixed(x);
      FixedNamesFacts();
      if x in files {
        SlashInPath(contracts, x);
      }
    }
  }

  function FindByContract(roots: seq<Root>, contractId: string): (found: Option<Root>)
    ensures found.Some? ==> found.value in roots && found.value.contractId == contractId
    ensures found.None? ==> !HasRoot(roots, contractId)
  {
    if roots == [] then None
    else if roots[0].contractId == contractId then Some(roots[0])
    else FindByContract(roots[1..], contractId)
  }

  /** A file with this content. */
  predicate Holds(files: map<string, Content>, path: string, content: Content) {
    path in files && files[path] == content
  }

  /** Every summary under its own name, and the hashes of all other files. */
  ghost predicate SummariesMade(made: Generated, endpoints: seq<Endpoint>, contracts: seq<Contract>, sseRoot: string) {
    var operations, entries := Operations(endpoints), ContractEntries(contracts);
    && Holds(made.files, "manifest.json", Manifest(operations, entries, made.generated))
    && Holds(made.files, "operations.json", OperationsJson(operations))
    && Holds(made.files, "contracts.json", ContractsJson(entries))
    && Holds(made.files, "runtime.ts", Runtime)
    && Holds(made.files, "test-only.ts", TestOnly(SchemaContractIds(contracts)))
    && Holds(made.files, "operations.ts", OperationsModule(operations))
    && Holds(made.files, "sse.ts", SseModule(sseRoot))
    && Holds(made.files, "index.ts", Index)
    && Holds(made.files, "generated.sha256", Hashes(made.files - {"generated.sha256"}))
  }

  /** The list of files is strictly ascending, and names exactly the files. */
  ghost predicate Listed(made: Generated) {
    Ascends(made.generated, Itself) && KeysAre(made.files, made.generated)
  }

  /** The files of a resolved selection can be made. */
  ghost predicate Buildable(resolved: Resolved, fixtures: map<string, seq<Byte>>) {
    && SlugsDistinct(resolved.contracts)
    && (forall k :: 0 <= k < |resolved.contracts| ==> Sourced(resolved.contracts[k], resolved.roots, fixtures))
    && HasRoot(resolved.roots, SSE_DATA) && HasRoot(resolved.roots, SSE_HEARTBEAT)
  }

  /** The rest of `expected_files`, after the contract loop. */
  method AssembleFiles(collected: Collected, endpoints: seq<Endpoint>, generated: seq<string>, sseRoot: string,
                       ghost contracts: seq<Contract>) returns (files: map<string, Content>)
    requires KeysAre(collected.files, ContractPaths(contracts)) && EntriesOf(collected.entries, contracts)
    requires collected.modules == SchemaContractIds(contracts)
    ensures KeysAre(files, AllNames(contracts)) && Includes(collected.files, files)
    ensures SummariesMade(Generated(files, generated), endpoints, contracts, sseRoot)
  {
    var entries, operations := collected.entries, Operations(endpoints);
    assert entries == ContractEntries(contracts);
    var contents :=
      [Manifest(operations, entries, generated), OperationsJson(operations), ContractsJson(entries), Runtime,
       TestOnly(collected.modules), OperationsModule(operations), SseModule(sseRoot), Index];
    var all := AddSummaries(collected.files, contents, contracts);
    files := all[HASH_FILE := Hashes(all)];
    KeysAreTheNames(contracts, all, Hashes(all));
    MadeByName(Generated(files, generated), all, endpoints, contracts, sseRoot);
  }

  /** Names, summaries and hashes. */
  method FinishFiles(collected: Collected, endpoints: seq<Endpoint>, sseRoot: string, ghost contracts: seq<Contract>)
    returns (made: Generated)
    requires SlugsDistinct(contracts) && KeysAre(collected.files, ContractPaths(contracts))
    requires EntriesOf(collected.entries, contracts) && collected.modules == SchemaContractIds(contracts)
    ensures Listed(made) && Includes(collected.files, made.files)
    ensures SummariesMade(made, endpoints, contracts, sseRoot)
  {
    var names := CollectNames(collected.entries, contracts);
    var generated := Sort(names, Itself);
    var files := AssembleFiles(collected, endpoints, generated, sseRoot, contracts);
    SortedNames(contracts);
    made := Generated(files, generated);
  }

  /** `expected_files`, once the selection is resolved. */
  method BuildFiles(resolved: Resolved, fixtures: map<string, seq<Byte>>)
    returns (r: Result<Generated, GenerateError>, ghost sse: Option<Root>)
    ensures r.Ok? <==> Buildable(resolved, fixtures)
    ensures r.Ok? ==>
              && Listed(r.value)
              && Added(r.value.files, resolved.contracts, |resolved.contracts|, resolved.roots, fixtures)
              && sse.Some? && sse.value in resolved.roots && sse.value.contractId == SSE_DATA
              && SummariesMade(r.value, resolved.endpoints, resolved.contracts, sse.value.id)
    ensures r.Err? ==> !r.error.Unresolved? && (r.error.NoRoot? ==> !AllFound(resolved.contracts, resolved.roots))
  {
    var contracts, roots := resolved.contracts, resolved.roots;
    var collected := AddContracts(contracts, roots, fixtures);
    if collected.Err? {
      return Err(collected.error), None;
    }
    var data, heartbeat := FindByContract(roots, SSE_DATA), FindByContract(roots, SSE_HEARTBEAT);
    FoundIffHasRoot(roots, SSE_DATA);
    FoundIffHasRoot(roots, SSE_HEARTBEAT);
    if data.None? || heartbeat.None? {
      return Err(MissingSseRoot), None;
    }
    var made := FinishFiles(collected.value, resolved.endpoints, data.value.id, contracts);
    AddedKept(collected.value.files, made.files, contracts, |contracts|, roots, fixtures);
    return Ok(made), data;
  }

  lemma FoundIffHasRoot(roots: seq<Root>, contractId: string)
    ensures FindByContract(roots, contractId).Some? <==> HasRoot(roots, contractId)
  {
    var found := FindByContract(roots, contractId);
    if found.Some? {
      var i :| 0 <= i < |roots| && roots[i] == found.value;
    }
  }

  lemma MadeByName(made: Generated, all: map<string, Content>, endpoints: seq<Endpoint>, contracts: seq<Contract>,
                   sseRoot: string)
    requires HASH_FILE !in all && made.files == all[HASH_FILE := Hashes(all)]
    requires var operations, entries := Operations(endpoints), ContractEntries(contracts);
             SummariesHold(all, [Manifest(operations, entries, made.generated), OperationsJson(operations),
                                 ContractsJson(entries), Runtime, TestOnly(SchemaContractIds(contracts)),
                                 OperationsModule(operations), SseModule(sseRoot), Index], 8)
    ensures SummariesMade(made, endpoints, contracts, sseRoot)
  {
    var operations, entries := Operations(endpoints), ContractEntries(contracts);
    var contents := [Manifest(operations, entries, made.generated), OperationsJson(operations), ContractsJson(entries),
                     Runtime, TestOnly(SchemaContractIds(contracts)), OperationsModule(operations), SseModule(sseRoot),
                     Index];
    forall k | 0 <= k < 8 ensures Holds(made.files, SUMMARIES[k], contents[k]) {
      assert SUMMARIES[k] in all && SUMMARIES[k] != HASH_FILE;
    }
    EightHold(made.files, SUMMARIES, contents);
    assert made.files - {HASH_FILE} == all;
  }

  lemma EightHold(files: map<string, Content>, names: seq<string>, contents: seq<Content>)
    requires |names| == 8 && |contents| == 8 && forall k :: 0 <= k < 8 ==> Holds(files, names[k], contents[k])
    ensures Holds(files, names[0], contents[0]) && Holds(files, names[1], contents[1])
    ensures Holds(files, names[2], contents[2]) && Holds(files, names[3], contents[3])
    ensures Holds(files, names[4], contents[4]) && Holds(files, names[5], contents[5])
    ensures Holds(files, names[6], contents[6]) && Holds(files, names[7], contents[7])
  {
  }

  // ----- from the selection file to the files

  const SSE_DATA := "sse.event.data"
  const SSE_HEARTBEAT := "sse.event.heartbeat"

  /** A contract with a schema is among them. */
  ghost predicate HasSchemaContract(contracts: seq<Contract>, id: string) {
    exists c :: c in contracts && c.id == id && c.schemaId.Some?
  }

  /** The fixtures of the contract's own root can be read. */
  ghost predicate Readable(c: Contract, registry: seq<Root>, fixtures: map<string, seq<Byte>>) {
    c.schemaId.Some? ==>
      forall root :: root in registry && root.contractId == c.id ==>
        root.validFixture in fixtures && root.invalidFixture in fixtures
  }

  /** The four files of a contract, made from this root. */
  predicate HasOwnFiles(files: map<string, Content>, c: Contract, root: Root, fixtures: map<string, seq<Byte>>) {
    && root.validFixture in fixtures && root.invalidFixture in fixtures
    && Holds(files, "schemas/" + Slug(c.id) + ".schema.json", Schema(root.id))
    && Holds(files, "fixtures/" + Slug(c.id) + ".valid.json", Fixture(fixtures[root.validFixture]))
    && Holds(files, "fixtures/" + Slug(c.id) + ".invalid.json", Fixture(fixtures[root.invalidFixture]))
    && Holds(files, "contracts/" + Slug(c.id) + ".ts", ContractModule(c.id, root.id))
  }

  /** Every contract with a schema has its files, made from its own root. */
  ghost predicate OwnFiles(files: map<string, Content>, contracts: seq<Contract>, registry: seq<Root>,
                           fixtures: map<string, seq<Byte>>)
  {
    forall c, root :: c in contracts && root in registry && c.schemaId.Some? && root.contractId == c.id ==>
      HasOwnFiles(files, c, root, fixtures)
  }

  lemma RootsAgree(file: SelectionFile, catalog: seq<Endpoint>, inventory: seq<Contract>, ops: seq<OperationDecl>,
                   registry: seq<Root>, c: Contract, root: Root)
    requires InventoryPasses(catalog, inventory, ops, registry)
    requires c in Chosen(file, catalog, inventory) && c.schemaId.Some? && root in registry && root.contractId == c.id
    ensures FindRoot(SelectedRoots(registry, Chosen(file, catalog, inventory)), c.schemaId.value) == Some(root)
  {
    ChosenAreKnown(file, catalog, inventory, c);
    SelectedRootsKept(registry, Chosen(file, catalog, inventory), c.schemaId.value);
    OwnRootIsFound(catalog, inventory, ops, registry, c, root);
  }

  lemma SourcedIffReadable(file: SelectionFile, catalog: seq<Endpoint>, inventory: seq<Contract>,
                           ops: seq<OperationDecl>, registry: seq<Root>, fixtures: map<string, seq<Byte>>, c: Contract)
    requires InventoryPasses(catalog, inventory, ops, registry) && c in Chosen(file, catalog, inventory)
    ensures Sourced(c, SelectedRoots(registry, Chosen(file, catalog, inventory)), fixtures) <==>
            Readable(c, registry, fixtures)
  {
    if c.schemaId.Some? {
      ChosenAreKnown(file, catalog, inventory, c);
      EverySchemaHasItsRoot(catalog, inventory, ops, registry, c);
      var own := FindRoot(registry, c.schemaId.value).value;
      RootsAgree(file, catalog, inventory, ops, registry, c, own);
      forall root | root in registry && root.contractId == c.id ensures root == own {
        RootsAgree(file, catalog, inventory, ops, registry, c, root);
      }
    }
  }

  lemma RootIsOfSchemaContract(file: SelectionFile, catalog: seq<Endpoint>, inventory: seq<Contract>,
                               ops: seq<OperationDecl>, registry: seq<Root>, id: string)
    requires InventoryPasses(catalog, inventory, ops, registry)
    requires HasRoot(SelectedRoots(registry, Chosen(file, catalog, inventory)), id)
    ensures HasSchemaContract(Chosen(file, catalog, inventory), id)
  {
    var contracts := Chosen(file, catalog, inventory);
    var roots := SelectedRoots(registry, contracts);
    var i :| 0 <= i < |roots| && roots[i].contractId == id;
    SelectedRootsAre(registry, contracts);
    var k :| 0 <= k < |contracts| && contracts[k].schemaId == Some(roots[i].id);
    ChosenAreKnown(file, catalog, inventory, contracts[k]);
    RootIsOwn(catalog, inventory, ops, registry, contracts[k], roots[i]);
    assert contracts[k] in contracts;
  }

  lemma SchemaContractHasRoot(contracts: seq<Contract>, roots: seq<Root>, id: string)
    requires forall c :: c in contracts && c.schemaId.Some? ==>
               var found := FindRoot(roots, c.schemaId.value); found.Some? && found.value.contractId == c.id
    requires HasSchemaContract(contracts, id)
    ensures HasRoot(roots, id)
  {
    var c :| c in contracts && c.id == id && c.schemaId.Some?;
    var found := FindRoot(roots, c.schemaId.value).value;
    var i :| 0 <= i < |roots| && roots[i] == found;
  }

  lemma HasRootIff(file: SelectionFile, catalog: seq<Endpoint>, inventory: seq<Contract>, ops: seq<OperationDecl>,
                   registry: seq<Root>, id: string)
    requires InventoryPasses(catalog, inventory, ops, registry)
    ensures var contracts := Chosen(file, catalog, inventory);
            HasRoot(SelectedRoots(registry, contracts), id) <==> HasSchemaContract(contracts, id)
  {
    var contracts := Chosen(file, catalog, inventory);
    if HasRoot(SelectedRoots(registry, contracts), id) {
      RootIsOfSchemaContract(file, catalog, inventory, ops, registry, id);
    }
    if HasSchemaContract(contracts, id) {
      ChosenAreRooted(file, catalog, inventory, ops, registry);
      SchemaContractHasRoot(contracts, SelectedRoots(registry, contracts), id);
    }
  }

  /** What the generator needs beyond an audited catalogue and a fitting selection. */
  ghost predicate Supplied(contracts: seq<Contract>, registry: seq<Root>, fixtures: map<string, seq<Byte>>) {
    && SlugsDistinct(contracts)
    && (forall k :: 0 <= k < |contracts| ==> Readable(contracts[k], registry, fixtures))
    && HasSchemaContract(contracts, SSE_DATA) && HasSchemaContract(contracts, SSE_HEARTBEAT)
  }

  lemma AllAreFound(file: SelectionFile, catalog: seq<Endpoint>, inventory: seq<Contract>, ops: seq<OperationDecl>,
                    registry: seq<Root>)
    requires InventoryPasses(catalog, inventory, ops, registry)
    ensures AllFound(Chosen(file, catalog, inventory), SelectedRoots(registry, Chosen(file, catalog, inventory)))
  {
    ChosenAreRooted(file, catalog, inventory, ops, registry);
  }

  lemma AllSourcedIff(file: SelectionFile, catalog: seq<Endpoint>, inventory: seq<Contract>, ops: seq<OperationDecl>,
                      registry: seq<Root>, fixtures: map<string, seq<Byte>>)
    requires InventoryPasses(catalog, inventory, ops, registry)
    ensures var contracts := Chosen(file, catalog, inventory);
            (forall k :: 0 <= k < |contracts| ==>
              Sourced(contracts[k], SelectedRoots(registry, contracts), fixtures)) <==>
            (forall k :: 0 <= k < |contracts| ==> Readable(contracts[k], registry, fixtures))
  {
    var contracts := Chosen(file, catalog, inventory);
    forall k | 0 <= k < |contracts|
      ensures Sourced(contracts[k], SelectedRoots(registry, contracts), fixtures) <==>
              Readable(contracts[k], registry, fixtures)
    {
      SourcedIffReadable(file, catalog, inventory, ops, registry, fixtures, contracts[k]);
    }
  }

  lemma BuildableIffSupplied(file: SelectionFile, catalog: seq<Endpoint>, inventory: seq<Contract>,
                             ops: seq<OperationDecl>, registry: seq<Root>, fixtures: map<string, seq<Byte>>)
    requires InventoryPasses(catalog, inventory, ops, registry)
    ensures Buildable(Selected(file, catalog, inventory, registry), fixtures) <==>
            Supplied(Chosen(file, catalog, inventory), registry, fixtures)
  {
    AllSourcedIff(file, catalog, inventory, ops, registry, fixtures);
    HasRootIff(file, catalog, inventory, ops, registry, SSE_DATA);
    HasRootIff(file, catalog, inventory, ops, registry, SSE_HEARTBEAT);
  }

  /** `expected_files`, from the selection file on. */
  method ExpectedFiles(file: SelectionFile, catalog: seq<Endpoint>, inventory: seq<Contract>, ops: seq<OperationDecl>,
                       registry: seq<Root>, fixtures: map<string, seq<Byte>>)
    returns (r: Result<Generated, GenerateError>)
    ensures r.Ok? <==>
              && InventoryPasses(catalog, inventory, ops, registry) && FileFits(file, catalog, inventory)
              && Supplied(Chosen(file, catalog, inventory), registry, fixtures)
    ensures r.Ok? ==> Listed(r.value) && OwnFiles(r.value.files, Chosen(file, catalog, inventory), registry, fixtures)
    ensures r.Ok? ==> forall root :: root in registry && root.contractId == "sse.event.data" ==>
              var selected := Selected(file, catalog, inventory, registry);
              SummariesMade(r.value, selected.endpoints, selected.contracts, root.id)
    ensures r != Err(NoRoot) && r != Err(Unresolved(MissingRoot))
  {
    var resolved := ResolveSelection(file, catalog, inventory, ops, registry);
    if resolved.Err? {
      return Err(Unresolved(resolved.error));
    }
    BuildableIffSupplied(file, catalog, inventory, ops, registry, fixtures);
    AllAreFound(file, catalog, inventory, ops, registry);
    ghost var sse;
    r, sse := BuildFiles(resolved.value, fixtures);
    if r.Ok? {
      FilesAreOwn(file, catalog, inventory, ops, registry, fixtures, r.value.files);
      SelectedRootsAre(registry, resolved.value.contracts);
      forall a, b | a in registry && b in registry && a.contractId == b.contractId ensures a == b {
        OneRootEach(catalog, inventory, ops, registry, a, b);
      }
    }
  }

  lemma FilesAreOwn(file: SelectionFile, catalog: seq<Endpoint>, inventory: seq<Contract>, ops: seq<OperationDecl>,
                    registry: seq<Root>, fixtures: map<string, seq<Byte>>, files: map<string, Content>)
    requires InventoryPasses(catalog, inventory, ops, registry)
    requires var contracts := Chosen(file, catalog, inventory);
             Added(files, contracts, |contracts|, SelectedRoots(registry, contracts), fixtures)
    ensures OwnFiles(files, Chosen(file, catalog, inventory), registry, fixtures)
  {
    var contracts := Chosen(file, catalog, inventory);
    forall c, root | c in contracts && root in registry && c.schemaId.Some? && root.contractId == c.id
      ensures HasOwnFiles(files, c, root, fixtures)
    {
      RootsAgree(file, catalog, inventory, ops, registry, c, root);
      FilesFromRoot(files, contracts, SelectedRoots(registry, contracts), fixtures, c, root);
    }
  }

  lemma FilesFromRoot(files: map<string, Content>, contracts: seq<Contract>, roots: seq<Root>,
                      fixtures: map<string, seq<Byte>>, c: Contract, root: Root)
    requires Added(files, contracts, |contracts|, roots, fixtures)
    requires c in contracts && c.schemaId.Some? && FindRoot(roots, c.schemaId.value) == Some(root)
    ensures HasOwnFiles(files, c, root, fixtures)
  {
    var m :| 0 <= m < |contracts| && contracts[m] == c;
    assert Sourced(contracts[m], roots, fixtures);
  }

  lemma SortedNames(contracts: seq<Contract>)
    requires SlugsDistinct(contracts)
    ensures Ascends(Sort(AllNames(contracts), Itself), Itself)
    ensures forall x :: x in Sort(AllNames(contracts), Itself) <==> x in AllNames(contracts)
  {
    var all := AllNames(contracts);
    NamesDistinct(contracts);
    assert forall i, j :: 0 <= i < j < |all| ==> Itself(all[i]) != Itself(all[j]);
    SortAscends(all, Itself);
  }

  lemma KeysAreTheNames(contracts: seq<Contract>, files: map<string, Content>, content: Content)
    requires KeysAre(files, ContractPaths(contracts) + SUMMARIES)
    ensures HASH_FILE !in files
    ensures KeysAre(files[HASH_FILE := content], AllNames(contracts))
  {
    SummariesDistinct();
    SummariesAreFixed(HASH_FILE);
    FixedNamesFacts();
    if HASH_FILE in ContractPaths(contracts) {
      SlashInPath(contracts, HASH_FILE);
    }
    forall x ensures x in files[HASH_FILE := content] <==> x in AllNames(contracts) {
      SummariesAreFixed(x);
    }
  }

  // ----- what the names and entries are

  /** A slug keeps ASCII letters and digits where they are and has a dash everywhere else. */
  lemma {:induction false} SlugIs(id: string, i: nat)
    requires i < |id|
    ensures |Slug(id)| == |id|
    ensures 'a' <= id[i] <= 'z' || 'A' <= id[i] <= 'Z' || '0' <= id[i] <= '9' ==> Slug(id)[i] == id[i]
    ensures !('a' <= id[i] <= 'z' || 'A' <= id[i] <= 'Z' || '0' <= id[i] <= '9') ==> Slug(id)[i] == '-'
    decreases |id|
  {
    if |id| > 1 {
      SlugIs(id[1..], if i > 0 then i - 1 else 0);
    }
  }

  /** The entries of the manifest say what the contracts say, and their paths are those of the contracts' files. */
  lemma EntriesAreOfContracts(contracts: seq<Contract>, i: nat)
    requires i < |contracts|
    ensures var c, entry := contracts[i], ContractEntries(contracts)[i];
            && |ContractEntries(contracts)| == |contracts|
            && entry.id == c.id && entry.surface == c.surface && entry.direction == c.direction
            && entry.strictness == c.strictness && entry.schemaId == c.schemaId
            && entry.schemaPath == (if c.schemaId.Some? then Some("schemas/" + Slug(c.id) + ".schema.json") else None)
            && entry.validFixture == (if c.schemaId.Some? then Some("fixtures/" + Slug(c.id) + ".valid.json") else None)
            && entry.invalidFixture ==
              (if c.schemaId.Some? then Some("fixtures/" + Slug(c.id) + ".invalid.json") else None)
  {
  }

  lemma OperationsAreOfEndpoints(endpoints: seq<Endpoint>, i: nat)
    requires i < |endpoints|
    ensures var e, operation := endpoints[i], Operations(endpoints)[i];
            && |Operations(endpoints)| == |endpoints|
            && operation.id == e.operationId && operation.verb == e.verb && operation.path == e.path
            && operation.obligations == e.obligations && operation.sharedComponents == e.sharedComponents
  {
  }

  /** The test module lists, in order, the contracts with schemas. */
  lemma {:induction false} SchemaContractIdsOfBoth(a: seq<Contract>, b: seq<Contract>)
    ensures SchemaContractIds(a + b) == SchemaContractIds(a) + SchemaContractIds(b)
    decreases |b|
  {
    if b == [] {
      assert a + b == a;
    } else {
      SchemaContractIdsOfBoth(a, b[..|b| - 1]);
      assert (a + b)[..|a + b| - 1] == a + b[..|b| - 1];
    }
  }
}
