/** The historical order of contracts and endpoints: the remove-and-append loop against a stable sort. */
module Reorder {
  import opened Wrappers
  import opened Catalogue
  import opened Topology

  /** The first place of `id` in the order list; unlisted ids come after all listed ones. */
  function Position(order: seq<string>, id: string): (p: nat)
    ensures p <= |order|
  {
    if order == [] then 0 else if order[0] == id then 0 else 1 + Position(order[1..], id)
  }

  /** The elements of one rank, in their order. */
  function Select<T>(s: seq<T>, rank: T -> nat, k: nat): seq<T> {
    if s == [] then [] else (if rank(s[0]) == k then [s[0]] else []) + Select(s[1..], rank, k)
  }

  ghost predicate Sorted<T>(s: seq<T>, rank: T -> nat) {
    forall i, j :: 0 <= i < j < |s| ==> rank(s[i]) <= rank(s[j])
  }

  /** `out` is `s` sorted by rank, with elements of equal rank in their original order: what a stable sort by
      key yields. */
  ghost predicate StablySorts<T(!new)>(s: seq<T>, out: seq<T>, rank: T -> nat) {
    Sorted(out, rank) && forall k: nat :: Select(out, rank, k) == Select(s, rank, k)
  }

  function ContractRank(order: seq<string>): Contract -> nat {
    (c: Contract) => Position(order, c.id)
  }

  function EndpointRank(order: seq<string>): Endpoint -> nat {
    (e: Endpoint) => Position(order, e.operationId)
  }

  // ----- the program

  function FindId(s: seq<Contract>, id: string): (found: Option<nat>)
    ensures found.Some? ==>
              found.value < |s| && s[found.value].id == id && forall i :: 0 <= i < found.value ==> s[i].id != id
    ensures found.None? ==> forall i :: 0 <= i < |s| ==> s[i].id != id
  {
    if s == [] then None
    else if s[0].id == id then Some(0)
    else match FindId(s[1..], id)
      case Some(i) => Some(i + 1)
      case None => None
  }

  function Without(s: seq<Contract>, i: nat): seq<Contract>
    requires i < |s|
  {
    s[..i] + s[i + 1..]
  }

  function Reordered(inventory: seq<Contract>, order: seq<string>): seq<Contract>
    decreases |order|
  {
    if order == [] then inventory
    else match FindId(inventory, order[0])
      case Some(i) => [inventory[i]] + Reordered(Without(inventory, i), order[1..])
      case None => Reordered(inventory, order[1..])
  }

  /** `reorder_contracts`: the new inventory. */
  method ReorderContracts(inventory: seq<Contract>, order: seq<string>) returns (ordered: seq<Contract>)
    ensures ordered == Reordered(inventory, order)
  {
    ordered := [];
    var rest := inventory;
    for n := 0 to |order|
      invariant ordered + Reordered(rest, order[n..]) == Reordered(inventory, order)
    {
      assert order[n..][0] == order[n] && order[n..][1..] == order[n + 1..];
      var index := FindId(rest, order[n]);
      if index.Some? {
        var i := index.value;
        assert ordered + ([rest[i]] + Reordered(Without(rest, i), order[n + 1..])) ==
               ordered + [rest[i]] + Reordered(Without(rest, i), order[n + 1..]);
        ordered := ordered + [rest[i]];
        rest := rest[..i] + rest[i + 1..];
      }
    }
    ordered := ordered + rest;
  }

  // ----- stable sorts are unique permutations

  lemma {:induction false} SelectBoth<T>(a: seq<T>, b: seq<T>, rank: T -> nat, k: nat)
    ensures Select(a + b, rank, k) == Select(a, rank, k) + Select(b, rank, k)
    decreases |a|
  {
    if a == [] {
      assert a + b == b;
    } else {
      SelectBoth(a[1..], b, rank, k);
      assert (a + b)[0] == a[0] && (a + b)[1..] == a[1..] + b;
      var head := if rank(a[0]) == k then [a[0]] else [];
      assert head + (Select(a[1..], rank, k) + Select(b, rank, k)) ==
        head + Select(a[1..], rank, k) + Select(b, rank, k);
    }
  }

  lemma {:induction false} SelectShifted<T>(s: seq<T>, rank: T -> nat, base: T -> nat, k: nat)
    requires forall x :: x in s ==> rank(x) == base(x) + 1
    ensures Select(s, rank, 0) == [] && Select(s, rank, k + 1) == Select(s, base, k)
    decreases |s|
  {
    if s != [] {
      SelectShifted(s[1..], rank, base, k);
    }
  }

  lemma {:induction false} SelectMembers<T(!new)>(s: seq<T>, rank: T -> nat, k: nat)
    ensures forall x :: x in Select(s, rank, k) <==> x in s && rank(x) == k
    decreases |s|
  {
    if s != [] {
      SelectMembers(s[1..], rank, k);
    }
  }

  lemma StableMembers<T(!new)>(s: seq<T>, out: seq<T>, rank: T -> nat, x: T)
    requires forall k: nat :: Select(out, rank, k) == Select(s, rank, k)
    ensures x in out <==> x in s
  {
    SelectMembers(s, rank, rank(x));
    SelectMembers(out, rank, rank(x));
  }

  lemma {:induction false} CountSelected<T>(s: seq<T>, rank: T -> nat, x: T)
    ensures multiset(Select(s, rank, rank(x)))[x] == multiset(s)[x]
    decreases |s|
  {
    if s != [] {
      CountSelected(s[1..], rank, x);
      assert s == [s[0]] + s[1..];
    }
  }

  lemma StableIsPermutation<T(!new)>(s: seq<T>, out: seq<T>, rank: T -> nat)
    requires StablySorts(s, out, rank)
    ensures multiset(out) == multiset(s)
  {
    forall x ensures multiset(out)[x] == multiset(s)[x] {
      CountSelected(s, rank, x);
      CountSelected(out, rank, x);
    }
  }

  lemma {:induction false} StableIsUnique<T(!new)>(a: seq<T>, b: seq<T>, rank: T -> nat)
    requires Sorted(a, rank) && Sorted(b, rank) && forall k: nat :: Select(a, rank, k) == Select(b, rank, k)
    ensures a == b
    decreases |a|
  {
    if a == [] {
      if b != [] {
        StableMembers(a, b, rank, b[0]);
        assert false;
      }
    } else {
      StableMembers(a, b, rank, a[0]);
      assert a[0] in b;
      StableMembers(a, b, rank, b[0]);
      SameHead(a, b, rank);
      forall j: nat ensures Select(a[1..], rank, j) == Select(b[1..], rank, j) {
        SelectTail(a, rank, j);
        SelectTail(b, rank, j);
        assert Select(a, rank, j) == Select(b, rank, j);
      }
      SortedTail(a, rank);
      SortedTail(b, rank);
      StableIsUnique(a[1..], b[1..], rank);
    }
  }

  lemma SortedTail<T>(s: seq<T>, rank: T -> nat)
    requires s != [] && Sorted(s, rank)
    ensures Sorted(s[1..], rank)
  {
  }

  lemma SelectTail<T>(s: seq<T>, rank: T -> nat, k: nat)
    requires s != []
    ensures Select(s[1..], rank, k) == if rank(s[0]) == k then Select(s, rank, k)[1..] else Select(s, rank, k)
  {
  }

  lemma SameHead<T>(a: seq<T>, b: seq<T>, rank: T -> nat)
    requires Sorted(a, rank) && Sorted(b, rank) && a != [] && b != [] && a[0] in b && b[0] in a
    requires forall k: nat :: Select(a, rank, k) == Select(b, rank, k)
    ensures a[0] == b[0]
  {
    var m :| 0 <= m < |b| && b[m] == a[0];
    var n :| 0 <= n < |a| && a[n] == b[0];
    var k := rank(a[0]);
    assert rank(b[0]) <= rank(b[m]) && k <= rank(a[n]);
    assert Select(a, rank, k)[0] == a[0] && Select(b, rank, k)[0] == b[0];
    assert Select(a, rank, k) == Select(b, rank, k);
  }

  // ----- the loop is a stable sort

  lemma RankShifts(order: seq<string>, c: Contract)
    requires order != [] && c.id != order[0]
    ensures ContractRank(order)(c) == ContractRank(order[1..])(c) + 1
  {
  }

  lemma ShiftedStablySorts<T(!new)>(s: seq<T>, out: seq<T>, rank: T -> nat, base: T -> nat)
    requires StablySorts(s, out, base) && forall x :: x in s || x in out ==> rank(x) == base(x) + 1
    ensures StablySorts(s, out, rank) && Select(s, rank, 0) == []
  {
    forall k: nat ensures Select(out, rank, k) == Select(s, rank, k) {
      SameShifted(s, out, rank, base, k);
    }
    ShiftedSorted(out, rank, base);
    SelectShifted(s, rank, base, 0);
  }

  lemma SameShifted<T>(s: seq<T>, out: seq<T>, rank: T -> nat, base: T -> nat, k: nat)
    requires k > 0 ==> Select(out, base, k - 1) == Select(s, base, k - 1)
    requires (forall x :: x in s ==> rank(x) == base(x) + 1) && forall x :: x in out ==> rank(x) == base(x) + 1
    ensures Select(out, rank, k) == Select(s, rank, k)
  {
    var j := if k == 0 then 0 else k - 1;
    SelectShifted(s, rank, base, j);
    SelectShifted(out, rank, base, j);
  }

  lemma ShiftedSorted<T>(out: seq<T>, rank: T -> nat, base: T -> nat)
    requires Sorted(out, base) && forall x :: x in out ==> rank(x) == base(x) + 1
    ensures Sorted(out, rank)
  {
    assert forall i :: 0 <= i < |out| ==> out[i] in out;
  }

  /** No element carries the first listed id: everything keeps its order relative to the rest of the list. */
  lemma ShiftStable(s: seq<Contract>, out: seq<Contract>, order: seq<string>)
    requires order != [] && forall c :: c in s ==> c.id != order[0]
    requires StablySorts(s, out, ContractRank(order[1..]))
    ensures StablySorts(s, out, ContractRank(order)) && Select(s, ContractRank(order), 0) == []
  {
    var rank, base := ContractRank(order), ContractRank(order[1..]);
    forall c | c in s || c in out ensures c in s && rank(c) == base(c) + 1 {
      StableMembers(s, out, base, c);
      RankShifts(order, c);
    }
    ShiftedStablySorts(s, out, rank, base);
  }

  /** Moving the one element of the lowest rank to the front keeps the sort stable. */
  lemma FirstStable(s: seq<Contract>, i: nat, out: seq<Contract>, rank: Contract -> nat)
    requires i < |s| && rank(s[i]) == 0
    requires StablySorts(Without(s, i), out, rank) && Select(Without(s, i), rank, 0) == []
    ensures StablySorts(s, [s[i]] + out, rank)
  {
    var x, rest := s[i], Without(s, i);
    assert s == s[..i] + [x] + s[i + 1..];
    forall k: nat ensures Select([x] + out, rank, k) == Select(s, rank, k) {
      SelectBoth([x], out, rank, k);
      SelectBoth(s[..i] + [x], s[i + 1..], rank, k);
      SelectBoth(s[..i], [x], rank, k);
      SelectBoth(s[..i], s[i + 1..], rank, k);
    }
  }

  /** On an inventory with distinct ids the loop is the stable sort by position in the order list. */
  lemma {:induction false} ReorderIsStableSort(inventory: seq<Contract>, order: seq<string>)
    requires DistinctIds(inventory)
    ensures StablySorts(inventory, Reordered(inventory, order), ContractRank(order))
    decreases |order|
  {
    if order == [] {
      assert forall c: Contract :: ContractRank(order)(c) == 0;
    } else {
      match FindId(inventory, order[0])
      case Some(i) =>
        var rest := Without(inventory, i);
        assert forall j :: 0 <= j < |rest| ==> rest[j] == inventory[if j < i then j else j + 1];
        ReorderIsStableSort(rest, order[1..]);
        ShiftStable(rest, Reordered(rest, order[1..]), order);
        FirstStable(inventory, i, Reordered(rest, order[1..]), ContractRank(order));
      case None =>
        ReorderIsStableSort(inventory, order[1..]);
        ShiftStable(inventory, Reordered(inventory, order[1..]), order);
    }
  }

  // ----- and only then, but for inventories of a single id

  ghost predicate OneId(inventory: seq<Contract>) {
    forall i, j :: 0 <= i < |inventory| && 0 <= j < |inventory| ==> inventory[i].id == inventory[j].id
  }

  lemma {:induction false} OneIdStays(inventory: seq<Contract>, order: seq<string>)
    requires OneId(inventory)
    ensures Reordered(inventory, order) == inventory
    decreases |order|
  {
    if order != [] {
      match FindId(inventory, order[0])
      case Some(i) =>
        assert i == 0 by { assert inventory[0].id == inventory[i].id; }
        assert Without(inventory, 0) == inventory[1..];
        OneIdStays(inventory[1..], order[1..]);
        assert [inventory[0]] + inventory[1..] == inventory;
      case None => OneIdStays(inventory, order[1..]);
    }
  }

  lemma RepeatedIdBreaks(inventory: seq<Contract>, i: nat, j: nat, y: nat)
    requires i < j < |inventory| && y < |inventory|
    requires inventory[i].id == inventory[j].id && inventory[y].id != inventory[i].id
    ensures var order := [inventory[i].id, inventory[y].id];
            !Sorted(Reordered(inventory, order), ContractRank(order))
  {
    var x, z := inventory[i].id, inventory[y].id;
    var a, b, m := Picks(inventory, i, j, y);
    TwoPicks(inventory, x, z, a, b);
    RankedOut(inventory[a], Without(inventory, a)[b], Without(Without(inventory, a), b), [x, z], m);
  }

  /** The two listed ids are taken from `a` and `b`, and an element of the first id stays behind at `m`. */
  lemma Picks(inventory: seq<Contract>, i: nat, j: nat, y: nat) returns (a: nat, b: nat, m: nat)
    requires i < j < |inventory| && y < |inventory|
    requires inventory[i].id == inventory[j].id && inventory[y].id != inventory[i].id
    ensures FindId(inventory, inventory[i].id) == Some(a)
    ensures var rest := Without(inventory, a);
            FindId(rest, inventory[y].id) == Some(b) && rest[b].id == inventory[y].id &&
            m < |Without(rest, b)| && Without(rest, b)[m].id == inventory[i].id
  {
    a := Finds(inventory, inventory[i].id, i);
    WithoutKeeps(inventory, a, j);
    WithoutKeeps(inventory, a, y);
    b, m := SecondPick(Without(inventory, a), j - 1, if y < a then y else y - 1, inventory[i].id, inventory[y].id);
  }

  lemma Finds(s: seq<Contract>, id: string, m: nat) returns (i: nat)
    requires m < |s| && s[m].id == id
    ensures FindId(s, id) == Some(i) && i <= m && s[i].id == id
  {
    i := FindId(s, id).value;
  }

  lemma SecondPick(rest: seq<Contract>, j: nat, y: nat, x: string, z: string) returns (b: nat, m: nat)
    requires j < |rest| && y < |rest| && rest[j].id == x && rest[y].id == z && x != z
    ensures FindId(rest, z) == Some(b) && rest[b].id == z
    ensures m < |Without(rest, b)| && Without(rest, b)[m].id == x
  {
    b := Finds(rest, z, y);
    m := if j < b then j else j - 1;
    WithoutKeeps(rest, b, j);
  }

  lemma TwoPicks(inventory: seq<Contract>, x: string, z: string, a: nat, b: nat)
    requires FindId(inventory, x) == Some(a) && FindId(Without(inventory, a), z) == Some(b)
    ensures Reordered(inventory, [x, z]) == [inventory[a], Without(inventory, a)[b]] + Without(Without(inventory, a), b)
  {
    var rest := Without(inventory, a);
    assert [x, z][1..] == [z] && [z][1..] == [];
    assert Reordered(rest, [z]) == [rest[b]] + Without(rest, b);
  }

  lemma WithoutKeeps(s: seq<Contract>, i: nat, m: nat)
    requires i < |s| && m < |s| && m != i
    ensures Without(s, i)[if m < i then m else m - 1] == s[m]
  {
  }

  lemma RankedOut(first: Contract, second: Contract, out: seq<Contract>, order: seq<string>, m: nat)
    requires |order| == 2 && order[0] != order[1] && m < |out| && second.id == order[1] && out[m].id == order[0]
    ensures !Sorted([first, second] + out, ContractRank(order))
  {
    var all := [first, second] + out;
    assert order[1..][0] == order[1];
    assert Position(order[1..], order[1]) == 0;
    assert Position(order, order[1]) == 1;
    assert all[m + 2] == out[m];
    assert ContractRank(order)(all[m + 2]) == 0 && ContractRank(order)(all[1]) == 1;
  }

  /** The loop agrees with the stable sort for every order list exactly when no id is repeated beside another. */
  lemma ReorderIsStableSortIff(inventory: seq<Contract>)
    ensures (forall order :: StablySorts(inventory, Reordered(inventory, order), ContractRank(order))) <==>
            DistinctIds(inventory) || OneId(inventory)
  {
    if DistinctIds(inventory) || OneId(inventory) {
      forall order ensures StablySorts(inventory, Reordered(inventory, order), ContractRank(order)) {
        if DistinctIds(inventory) {
          ReorderIsStableSort(inventory, order);
        } else {
          OneIdStays(inventory, order);
          assert forall i, j :: 0 <= i < j < |inventory| ==>
            ContractRank(order)(inventory[i]) == ContractRank(order)(inventory[j]);
        }
      }
    } else {
      var i, j :| 0 <= i < j < |inventory| && inventory[i].id == inventory[j].id;
      var k, l :| 0 <= k < |inventory| && 0 <= l < |inventory| && inventory[k].id != inventory[l].id;
      var y := if inventory[k].id != inventory[i].id then k else l;
      RepeatedIdBreaks(inventory, i, j, y);
    }
  }
}
