/** What an accepted batch comes to does not depend on the order or the repetition of its events; splitting a
    batch is safe exactly as long as no event has been pushed off the page. */
module BatchLaws {
  import opened Json
  import opened ExplorerEvents

  /** Equal but for the member order inside event bodies. */
  ghost predicate SameUpToOrder(s: seq<Event>, t: seq<Event>) {
    |s| == |t| && forall i :: 0 <= i < |s| ==> SamePrint(s[i], t[i])
  }

  ghost predicate SameEvents(a: seq<Event>, b: seq<Event>) {
    forall e :: e in a <==> e in b
  }

  /** The `n` events of the largest ids, in ascending order. */
  ghost function Top(m: map<int, Event>, n: nat): (s: seq<Event>)
    ensures |s| == if |m| <= n then |m| else n
    decreases n
  {
    if n == 0 || m == map[] then [] else
      var k := LargestKey(m);
      assert (m - {k}).Keys == m.Keys - {k};
      Top(m - {k}, n - 1) + [m[k]]
  }

  lemma {:induction false} LastNIsTop(m: map<int, Event>, n: nat)
    ensures LastN(Ascending(m), n) == Top(m, n)
    decreases n
  {
    if n > 0 && m != map[] {
      var k := LargestKey(m);
      LastNIsTop(m - {k}, n - 1);
      assert (m - {k}).Keys == m.Keys - {k};
    }
  }

  ghost predicate SamePrint(e: Event, f: Event) {
    EventFingerprint(e) == EventFingerprint(f)
  }

  /** The `n` largest keys. */
  ghost function TopKeys(m: map<int, Event>, n: nat): (keys: set<int>)
    ensures keys <= m.Keys
    decreases n
  {
    if n == 0 || m == map[] then {} else {LargestKey(m)} + TopKeys(m - {LargestKey(m)}, n - 1)
  }

  /** `small` is part of `m` and has its `n` largest keys. */
  ghost predicate HasTheTop(m: map<int, Event>, small: map<int, Event>, n: nat) {
    small.Keys <= m.Keys && TopKeys(m, n) <= small.Keys && forall k :: k in small ==> SamePrint(small[k], m[k])
  }

  lemma SmallHasTheLargest(m: map<int, Event>, small: map<int, Event>, n: nat)
    requires HasTheTop(m, small, n) && n > 0 && m != map[]
    ensures small != map[] && LargestKey(small) == LargestKey(m)
    ensures var k := LargestKey(m); HasTheTop(m - {k}, small - {k}, n - 1)
  {
    assert LargestKey(m) in small;
    assert LargestKey(m) !in m - {LargestKey(m)};
  }

  lemma TopExtends(m: map<int, Event>, small: map<int, Event>, n: nat, k: int)
    requires n > 0 && k in m && k in small && LargestKey(m) == k && LargestKey(small) == k
    requires SamePrint(m[k], small[k])
    requires SameUpToOrder(Top(m - {k}, n - 1), Top(small - {k}, n - 1))
    ensures SameUpToOrder(Top(m, n), Top(small, n))
  {
    SnocSame(Top(m - {k}, n - 1), Top(small - {k}, n - 1), m[k], small[k]);
  }

  lemma {:induction false} TopIsKept(m: map<int, Event>, small: map<int, Event>, n: nat)
    requires HasTheTop(m, small, n)
    ensures SameUpToOrder(Top(m, n), Top(small, n))
    decreases n
  {
    if n > 0 && m != map[] {
      SmallHasTheLargest(m, small, n);
      var k := LargestKey(m);
      TopIsKept(m - {k}, small - {k}, n - 1);
      TopExtends(m, small, n, k);
    }
  }

  ghost function Above(m: map<int, Event>, k: int): set<int> {
    set j | j in m && k < j
  }

  /** A key among the `n` largest has fewer than `n` keys above it. */
  lemma {:induction false} FewAboveTop(m: map<int, Event>, n: nat, k: int)
    requires k in TopKeys(m, n)
    ensures |Above(m, k)| < n
    decreases n
  {
    var top := LargestKey(m);
    if k == top {
      assert Above(m, k) == {};
    } else {
      FewAboveTop(m - {top}, n - 1, k);
      assert Above(m, k) == Above(m - {top}, k) + {top};
    }
  }

  lemma SnocSame(s: seq<Event>, t: seq<Event>, e: Event, f: Event)
    requires SameUpToOrder(s, t) && SamePrint(e, f)
    ensures SameUpToOrder(s + [e], t + [f])
  {
  }

  /** An event that is not on the page has a full page of larger ids above it. */
  lemma {:induction false} OffThePage(m: map<int, Event>, n: nat, k: int)
    requires KeyedById(m) && k in m && m[k] !in Top(m, n)
    ensures |Top(m, n)| == n && forall e :: e in Top(m, n) ==> k < e.id && e.id in m && m[e.id] == e
    decreases n
  {
    if n > 0 {
      var top := LargestKey(m);
      assert k != top;
      assert forall e :: e in Top(m, n) <==> e in Top(m - {top}, n - 1) || e == m[top];
      OffThePage(m - {top}, n - 1, k);
    }
  }

  lemma {:induction false} TopIsAscending(m: map<int, Event>, n: nat)
    requires KeyedById(m)
    ensures StrictlyAscending(Top(m, n))
    ensures forall e :: e in Top(m, n) ==> e.id in m && m[e.id] == e
    decreases n
  {
    if n > 0 && m != map[] {
      var k := LargestKey(m);
      TopIsAscending(m - {k}, n - 1);
      SnocElements(Top(m - {k}, n - 1), m[k], Top(m, n));
    }
  }

  ghost function Ids(s: seq<Event>): set<int> {
    set e | e in s :: e.id
  }

  lemma {:induction false} IdsOfAscending(s: seq<Event>)
    requires StrictlyAscending(s)
    ensures |Ids(s)| == |s|
  {
    if s != [] {
      var init, e := s[..|s| - 1], s[|s| - 1];
      IdsOfAscending(init);
      assert s == init + [e];
      assert Ids(s) == Ids(init) + {e.id};
      assert e.id !in Ids(init);
    }
  }

  /** The page: part of the events, strictly ascending, and no more than the limit. */
  lemma PageFacts(events: seq<Event>)
    ensures StrictlyAscending(Page(events)) && |Page(events)| <= 150
    ensures Page(events) == Top(FirstById(events), BOARD_EVENTS_PAGE_LIMIT)
    ensures forall e :: e in Page(events) ==> e in events && e.id in FirstById(events) && FirstById(events)[e.id] == e
  {
    FirstByIdFacts(events);
    LastNIsTop(FirstById(events), BOARD_EVENTS_PAGE_LIMIT);
    TopIsAscending(FirstById(events), BOARD_EVENTS_PAGE_LIMIT);
  }

  /** Accepted events are of the board, have safe positive ids and event ids that are not blank, and no two of them
      share one identity without the other. */
  lemma AcceptedMeans(events: seq<Event>, boardId: string, e: Event, f: Event)
    requires Accepted(events, boardId) && e in events && f in events
    ensures e.boardId == boardId && 1 <= e.id <= 9_007_199_254_740_991
    ensures exists i :: 0 <= i < |e.eventId| && e.eventId[i] !in " \t\n\r"
    ensures e.id == f.id <==> e.eventId == f.eventId
    ensures e.id == f.id ==> Stable(e.body) == Stable(f.body)
  {
    assert Compatible(e, f);
    var i :| 0 <= i < |e.eventId| && !IsJsSpace(e.eventId[i]);
  }

  /** Order and repetition of the events do not matter. */
  lemma OrderDoesNotMatter(a: seq<Event>, b: seq<Event>, boardId: string)
    requires SameEvents(a, b)
    ensures Accepted(a, boardId) <==> Accepted(b, boardId)
    ensures Accepted(a, boardId) ==> SameUpToOrder(Page(a), Page(b))
  {
    if Accepted(a, boardId) {
      FirstByIdFacts(a);
      FirstByIdFacts(b);
      var m, n := FirstById(a), FirstById(b);
      forall k | k in n ensures k in m && SamePrint(n[k], m[k]) {
        assert n[k] in a && m[k] in a && Compatible(n[k], m[k]);
      }
      forall k | k in m ensures k in n {
        assert m[k] in b;
      }
      TopIsKept(m, n, BOARD_EVENTS_PAGE_LIMIT);
      LastNIsTop(m, BOARD_EVENTS_PAGE_LIMIT);
      LastNIsTop(n, BOARD_EVENTS_PAGE_LIMIT);
    }
  }

  /** An event off the page is not among the last of a map that has the whole page. */
  lemma OffThisPage(events: seq<Event>, k: int, more: map<int, Event>)
    requires k in FirstById(events) && Ids(Page(events)) <= more.Keys
    requires forall e :: e in Page(events) ==> e.id != k
    ensures k !in TopKeys(more, BOARD_EVENTS_PAGE_LIMIT)
  {
    FirstByIdFacts(events);
    PageFacts(events);
    OffThePage(FirstById(events), BOARD_EVENTS_PAGE_LIMIT, k);
    PageAbove(Page(events), k, more);
    if k in TopKeys(more, BOARD_EVENTS_PAGE_LIMIT) {
      FewAboveTop(more, BOARD_EVENTS_PAGE_LIMIT, k);
    }
  }

  lemma PageAbove(page: seq<Event>, k: int, more: map<int, Event>)
    requires StrictlyAscending(page) && Ids(page) <= more.Keys && forall e :: e in page ==> k < e.id
    ensures |page| <= |Above(more, k)|
  {
    IdsOfAscending(page);
    forall j | j in Ids(page) ensures j in Above(more, k) {
      assert j in more.Keys;
    }
    SubsetIsSmaller(Ids(page), Above(more, k));
  }

  lemma SubsetIsSmaller(a: set<int>, b: set<int>)
    requires a <= b
    ensures |a| <= |b|
  {
    assert b - a + a == b;
  }

  lemma PartsHaveTheTop(a: seq<Event>, b: seq<Event>, whole: map<int, Event>, parts: map<int, Event>)
    requires Consistent(a + b) && whole == FirstById(a + b) && parts == FirstById(Page(a) + b)
    ensures HasTheTop(whole, parts, BOARD_EVENTS_PAGE_LIMIT)
  {
    PageFacts(a);
    FirstByIdFacts(a);
    FirstByIdFacts(a + b);
    FirstByIdFacts(Page(a) + b);
    forall k | k in parts ensures k in whole && SamePrint(parts[k], whole[k]) {
      assert parts[k] in a + b;
      assert Compatible(parts[k], whole[k]);
    }
    forall e | e in Page(a) ensures e.id in parts {
      assert e in Page(a) + b;
    }
    forall k | k in whole && k !in parts ensures k !in TopKeys(whole, BOARD_EVENTS_PAGE_LIMIT) {
      assert whole[k] in a;
      OffThisPage(a, k, whole);
    }
  }

  /** A batch that is accepted whole is accepted in two parts, with the same page. */
  lemma TwoPartsGiveTheSamePage(a: seq<Event>, b: seq<Event>, boardId: string)
    requires Accepted(a + b, boardId)
    ensures Accepted(a, boardId) && Accepted(Page(a) + b, boardId)
    ensures SameUpToOrder(Page(a + b), Page(Page(a) + b))
  {
    PageFacts(a);
    PageFacts(a + b);
    PageFacts(Page(a) + b);
    assert forall e :: e in Page(a) + b ==> e in a + b;
    assert forall e :: e in a ==> e in a + b;
    PartsHaveTheTop(a, b, FirstById(a + b), FirstById(Page(a) + b));
    TopIsKept(FirstById(a + b), FirstById(Page(a) + b), BOARD_EVENTS_PAGE_LIMIT);
  }

  /** Appending the same events again changes nothing. */
  lemma AppendingIsIdempotent(a: seq<Event>, boardId: string)
    requires Accepted(a, boardId)
    ensures Accepted(Page(a) + a, boardId) && SameUpToOrder(Page(Page(a) + a), Page(a))
  {
    assert SameEvents(a, a + a);
    OrderDoesNotMatter(a, a + a, boardId);
    TwoPartsGiveTheSamePage(a, a, boardId);
  }

  function OtherBody(e: Event): Event {
    e.(body := if e.body.Null? then Json.Bool(true) else Json.Null)
  }

  lemma SomeElement<T>(s: set<T>) returns (x: T)
    requires s != {}
    ensures x in s
  {
    x :| x in s;
  }

  lemma SomethingForgotten(a: seq<Event>) returns (e: Event)
    requires BOARD_EVENTS_PAGE_LIMIT < |FirstById(a)|
    ensures e in a && forall f :: f in Page(a) ==> f in a && f.id != e.id
  {
    PageFacts(a);
    FirstByIdFacts(a);
    IdsOfAscending(Page(a));
    var m, ids := FirstById(a), Ids(Page(a));
    assert |m.Keys - ids| == |m.Keys| - |ids|;
    var k := SomeElement(m.Keys - ids);
    e := m[k];
    forall f | f in Page(a) ensures f.id != k {
      assert f.id in ids;
    }
  }

  lemma FullPageForgets(a: seq<Event>, boardId: string) returns (e: Event)
    requires Accepted(a, boardId) && BOARD_EVENTS_PAGE_LIMIT < |FirstById(a)|
    ensures Accepted(Page(a) + [e], boardId) && !Accepted(a + [e], boardId)
  {
    var f := SomethingForgotten(a);
    e := OtherBody(f);
    assert f in a + [e] && e in a + [e] && !Compatible(f, e);
    forall g | g in Page(a) ensures Compatible(g, e) && Compatible(e, g) {
      assert Compatible(g, f);
    }
  }

  /** Handing over a batch in parts detects exactly the same conflicts if and only if the first part did not
      overflow the page; beyond that, a conflict with a forgotten event goes unnoticed. */
  lemma PartsDetectTheSameConflicts(a: seq<Event>, boardId: string)
    requires Accepted(a, boardId)
    ensures (forall b :: Accepted(Page(a) + b, boardId) <==> Accepted(a + b, boardId)) <==>
            |FirstById(a)| <= BOARD_EVENTS_PAGE_LIMIT
  {
    if BOARD_EVENTS_PAGE_LIMIT < |FirstById(a)| {
      var e := FullPageForgets(a, boardId);
      assert !(Accepted(Page(a) + [e], boardId) <==> Accepted(a + [e], boardId));
    } else {
      forall b ensures Accepted(Page(a) + b, boardId) <==> Accepted(a + b, boardId) {
        if Accepted(a + b, boardId) {
          TwoPartsGiveTheSamePage(a, b, boardId);
        }
        if Accepted(Page(a) + b, boardId) {
          SmallPageRemembers(a, b, boardId);
        }
      }
    }
  }

  lemma CompatibleThrough(e: Event, first: Event, f: Event)
    requires Compatible(first, e) && first.id == e.id && Compatible(first, f)
    ensures Compatible(e, f) && Compatible(f, e)
  {
  }

  lemma SmallPageRemembers(a: seq<Event>, b: seq<Event>, boardId: string)
    requires Accepted(a, boardId) && |FirstById(a)| <= BOARD_EVENTS_PAGE_LIMIT && Accepted(Page(a) + b, boardId)
    ensures Accepted(a + b, boardId)
  {
    FirstByIdFacts(a);
    AscendingElements(FirstById(a));
    var m, parts := FirstById(a), Page(a) + b;
    assert forall f :: f in b ==> f in parts;
    forall e, f | e in a && f in b ensures Compatible(e, f) && Compatible(f, e) {
      assert m[e.id] in a && m[e.id] in Page(a) && m[e.id] in parts;
      CompatibleThrough(e, m[e.id], f);
    }
  }
}
