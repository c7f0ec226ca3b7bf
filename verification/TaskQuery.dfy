/** The client's task query paths: percent-encoding (sections 2.1 and 2.3 of RFC 3986), the ordered list of query
    pairs, and reading both back. */
module TaskQuery {
  import opened Wrappers
  import opened Text

  /** A UTF-8 string, one character per byte. */
  type ByteText = s: string | forall i :: 0 <= i < |s| ==> s[i] as int < 256

  predicate Unreserved(c: char) {
    'a' <= c <= 'z' || 'A' <= c <= 'Z' || '0' <= c <= '9' || c == '-' || c == '_' || c == '.' || c == '~'
  }

  function Hex(n: nat): char
    requires n < 16
  {
    if n < 10 then '0' + n as char else 'A' + (n - 10) as char
  }

  function HexValue(c: char): Option<nat> {
    if '0' <= c <= '9' then Some(c as int - '0' as int)
    else if 'A' <= c <= 'F' then Some(c as int - 'A' as int + 10)
    else if 'a' <= c <= 'f' then Some(c as int - 'a' as int + 10)
    else None
  }

  function EncodeByte(c: char): string
    requires c as int < 256
  {
    if Unreserved(c) then [c] else ['%', Hex(c as int / 16), Hex(c as int % 16)]
  }

  function Encode(s: ByteText): string {
    if s == [] then [] else EncodeByte(s[0]) + Encode(s[1..])
  }

  /** `encode_path_segment`. */
  method EncodePathSegment(value: ByteText) returns (encoded: string)
    ensures encoded == Encode(value)
  {
    encoded := [];
    for i := 0 to |value|
      invariant encoded + Encode(value[i..]) == Encode(value)
    {
      var byte := value[i];
      NextEncoded(encoded, value, i);
      if Unreserved(byte) {
        encoded := encoded + [byte];
      } else {
        encoded := encoded + ['%', Hex(byte as int / 16), Hex(byte as int % 16)];
      }
    }
  }

  lemma NextEncoded(encoded: string, value: ByteText, i: nat)
    requires i < |value|
    ensures encoded + Encode(value[i..]) == encoded + EncodeByte(value[i]) + Encode(value[i + 1..])
  {
    assert value[i..][1..] == value[i + 1..];
    assert encoded + (EncodeByte(value[i]) + Encode(value[i + 1..])) ==
      encoded + EncodeByte(value[i]) + Encode(value[i + 1..]);
  }

  /** Percent-decoding. */
  function Decode(s: string): Option<string> {
    if s == [] then Some([])
    else if s[0] != '%' then
      match Decode(s[1..])
      case Some(rest) => Some([s[0]] + rest)
      case None => None
    else if |s| < 3 then None
    else
      match (HexValue(s[1]), HexValue(s[2]), Decode(s[3..]))
      case (Some(high), Some(low), Some(rest)) => Some([(16 * high + low) as char] + rest)
      case _ => None
  }

  lemma {:induction false} DecodesBack(s: ByteText)
    ensures Decode(Encode(s)) == Some(s)
  {
    if s != [] {
      DecodesBack(s[1..]);
      var rest := Encode(s[1..]);
      if Unreserved(s[0]) {
        assert ([s[0]] + rest)[1..] == rest;
      } else {
        var n := s[0] as int;
        assert (['%', Hex(n / 16), Hex(n % 16)] + rest)[3..] == rest;
        assert HexValue(Hex(n / 16)) == Some(n / 16) && HexValue(Hex(n % 16)) == Some(n % 16);
        assert (16 * (n / 16) + n % 16) as char == s[0];
      }
      assert [s[0]] + s[1..] == s;
    }
  }

  /** The encoding uses none of the characters that structure a path or a query. */
  lemma {:induction false} EncodedIsPlain(s: ByteText, c: char)
    requires c in {'/', '?', '&', '='}
    ensures c !in Encode(s)
  {
    if s != [] {
      EncodedIsPlain(s[1..], c);
    }
  }

  /** An unreserved character of RFC 3986, section 2.3, stands for itself; any other byte becomes a percent sign and
      the two upper-case hexadecimal digits of its value. */
  lemma EncodedByteIs(c: char)
    requires c as int < 256
    ensures 'a' <= c <= 'z' || 'A' <= c <= 'Z' || '0' <= c <= '9' || c in "-._~" ==> EncodeByte(c) == [c]
    ensures !('a' <= c <= 'z' || 'A' <= c <= 'Z' || '0' <= c <= '9' || c in "-._~") ==>
              var e := EncodeByte(c);
              && |e| == 3 && e[0] == '%' && UpperHex(e[1]) && UpperHex(e[2])
              && 16 * UpperHexValue(e[1]) + UpperHexValue(e[2]) == c as int
  {
  }

  predicate UpperHex(c: char) {
    '0' <= c <= '9' || 'A' <= c <= 'F'
  }

  function UpperHexValue(c: char): int
    requires UpperHex(c)
  {
    if c <= '9' then c as int - 48 else c as int - 55
  }

  /** Byte by byte. */
  lemma {:induction false} EncodeIsBytewise(a: ByteText, b: ByteText)
    ensures Encode(a + b) == Encode(a) + Encode(b)
    ensures |a| == 1 ==> Encode(a) == EncodeByte(a[0])
    decreases |a|
  {
    if a == [] {
      assert a + b == b;
    } else {
      EncodeIsBytewise(a[1..], b);
      assert (a + b)[1..] == a[1..] + b && (a + b)[0] == a[0];
      Regroup3(EncodeByte(a[0]), Encode(a[1..]), Encode(b));
    }
  }

  lemma Regroup3(a: string, b: string, c: string)
    ensures a + (b + c) == a + b + c
  {
  }

  // ----- pairs

  datatype Pair = Pair(key: string, value: ByteText)

  function PairText(pair: Pair): string {
    pair.key + "=" + Encode(pair.value)
  }

  function PairTexts(pairs: seq<Pair>): (texts: seq<string>)
    ensures |texts| == |pairs| && forall i :: 0 <= i < |pairs| ==> texts[i] == PairText(pairs[i])
  {
    seq(|pairs|, i requires 0 <= i < |pairs| => PairText(pairs[i]))
  }

  function QueryText(pairs: seq<Pair>): string {
    Join(PairTexts(pairs), '&')
  }

  /** A key of the query; none of them needs encoding. */
  predicate PlainKey(key: string) {
    '=' !in key && '&' !in key && '?' !in key
  }

  function ReadPair(text: string): Option<Pair> {
    match SplitOnce(text, '=')
    case Some((key, value)) =>
      (match Decode(value)
       case Some(v) => if forall i :: 0 <= i < |v| ==> v[i] as int < 256 then Some(Pair(key, v)) else None
       case None => None)
    case None => None
  }

  function ReadPairs(texts: seq<string>): Option<seq<Pair>> {
    if texts == [] then Some([])
    else
      match (ReadPair(texts[0]), ReadPairs(texts[1..]))
      case (Some(pair), Some(rest)) => Some([pair] + rest)
      case _ => None
  }

  lemma PairReadsBack(pair: Pair)
    requires PlainKey(pair.key)
    ensures ReadPair(PairText(pair)) == Some(pair) && '&' !in PairText(pair)
  {
    DecodesBack(pair.value);
    EncodedIsPlain(pair.value, '&');
    SplitsOnceAt(pair.key, Encode(pair.value), '=');
  }

  lemma {:induction false} PairsReadBack(pairs: seq<Pair>)
    requires forall i :: 0 <= i < |pairs| ==> PlainKey(pairs[i].key)
    ensures ReadPairs(PairTexts(pairs)) == Some(pairs)
    ensures forall i :: 0 <= i < |pairs| ==> '&' !in PairTexts(pairs)[i]
    decreases |pairs|
  {
    if pairs != [] {
      PairReadsBack(pairs[0]);
      PairsReadBack(pairs[1..]);
      assert PairTexts(pairs)[1..] == PairTexts(pairs[1..]);
      assert [pairs[0]] + pairs[1..] == pairs;
      forall i | 1 <= i < |pairs| ensures '&' !in PairTexts(pairs)[i] {
        assert PairTexts(pairs)[i] == PairTexts(pairs[1..])[i - 1];
      }
    }
  }

  /** The server's view of a request: the path segments and the ordered query pairs. */
  function ReadRequest(request: string): Option<(seq<string>, seq<Pair>)> {
    match SplitOnce(request, '?')
    case Some((path, query)) =>
      (match ReadPairs(Split(query, '&'))
       case Some(pairs) => Some((Split(path, '/'), pairs))
       case None => None)
    case None => None
  }

  lemma RequestReadsBack(segments: seq<string>, pairs: seq<Pair>)
    requires segments != [] && pairs != []
    requires forall i :: 0 <= i < |segments| ==> '/' !in segments[i] && '?' !in segments[i]
    requires forall i :: 0 <= i < |pairs| ==> PlainKey(pairs[i].key)
    ensures ReadRequest(Join(segments, '/') + "?" + QueryText(pairs)) == Some((segments, pairs))
  {
    JoinAvoids(segments, '/', '?');
    SplitsOnceAt(Join(segments, '/'), QueryText(pairs), '?');
    PairsReadBack(pairs);
    SplitJoin(PairTexts(pairs), '&');
    SplitJoin(segments, '/');
  }

  lemma {:induction false} JoinAvoids(parts: seq<string>, sep: char, c: char)
    requires c != sep && forall i :: 0 <= i < |parts| ==> c !in parts[i]
    ensures c !in Join(parts, sep)
    decreases |parts|
  {
    if |parts| > 1 {
      JoinAvoids(parts[1..], sep, c);
    }
  }

  // ----- the task query

  /** Enumerated fields are given by their wire names. */
  datatype TaskRead = TaskRead(
    statuses: seq<ByteText>, priorities: seq<nat>, labels: seq<ByteText>, planFilters: seq<ByteText>,
    assignee: Option<ByteText>, search: Option<ByteText>, includeArchived: bool,
    limit: nat, offset: nat, sort: ByteText)

  datatype Section = Section(key: string, values: seq<ByteText>)

  function BoolText(b: bool): ByteText {
    if b then "true" else "false"
  }

  function Number(n: nat): ByteText {
    NatText(n)
  }

  function Numbers(ns: seq<nat>): (r: seq<ByteText>)
    ensures |r| == |ns| && forall i :: 0 <= i < |ns| ==> r[i] == Number(ns[i])
  {
    seq(|ns|, i requires 0 <= i < |ns| => Number(ns[i]))
  }

  function Optional(value: Option<ByteText>): seq<ByteText> {
    if value.Some? then [value.value] else []
  }

  /** The fields in the order in which they are pushed. */
  function Sections(q: TaskRead): seq<Section> {
    [Section("status", q.statuses), Section("priority", Numbers(q.priorities)), Section("label", q.labels),
     Section("plan_filter", q.planFilters), Section("assignee", Optional(q.assignee)), Section("q", Optional(q.search)),
     Section("include_archived", [BoolText(q.includeArchived)]), Section("limit", [Number(q.limit)]),
     Section("offset", [Number(q.offset)]), Section("sort", [q.sort])]
  }

  function Tag(key: string, values: seq<ByteText>): seq<Pair> {
    if values == [] then [] else [Pair(key, values[0])] + Tag(key, values[1..])
  }

  function Flatten(sections: seq<Section>): seq<Pair> {
    if sections == [] then [] else Tag(sections[0].key, sections[0].values) + Flatten(sections[1..])
  }

  function ValuesOf(key: string, pairs: seq<Pair>): seq<ByteText> {
    if pairs == [] then []
    else (if pairs[0].key == key then [pairs[0].value] else []) + ValuesOf(key, pairs[1..])
  }

  lemma {:induction false} ValuesOfBoth(key: string, a: seq<Pair>, b: seq<Pair>)
    ensures ValuesOf(key, a + b) == ValuesOf(key, a) + ValuesOf(key, b)
    decreases |a|
  {
    if a == [] {
      assert a + b == b;
    } else {
      ValuesOfBoth(key, a[1..], b);
      assert (a + b)[0] == a[0] && (a + b)[1..] == a[1..] + b;
      RegroupValues(if a[0].key == key then [a[0].value] else [], ValuesOf(key, a[1..]), ValuesOf(key, b));
    }
  }

  lemma RegroupValues(a: seq<ByteText>, b: seq<ByteText>, c: seq<ByteText>)
    ensures a + (b + c) == a + b + c
  {
  }

  lemma {:induction false} ValuesOfTag(key: string, tag: string, values: seq<ByteText>)
    ensures ValuesOf(key, Tag(tag, values)) == if tag == key then values else []
    decreases |values|
  {
    if values != [] {
      ValuesOfTag(key, tag, values[1..]);
      assert Tag(tag, values)[1..] == Tag(tag, values[1..]);
    }
  }

  predicate DistinctSections(sections: seq<Section>) {
    forall i, j :: 0 <= i < j < |sections| ==> sections[i].key != sections[j].key
  }

  lemma FirstSection(key: string, sections: seq<Section>)
    requires sections != []
    ensures ValuesOf(key, Flatten(sections)) ==
            (if sections[0].key == key then sections[0].values else []) + ValuesOf(key, Flatten(sections[1..]))
  {
    ValuesOfBoth(key, Tag(sections[0].key, sections[0].values), Flatten(sections[1..]));
    ValuesOfTag(key, sections[0].key, sections[0].values);
  }

  lemma {:induction false} AbsentKey(key: string, sections: seq<Section>)
    requires forall i :: 0 <= i < |sections| ==> sections[i].key != key
    ensures ValuesOf(key, Flatten(sections)) == []
    decreases |sections|
  {
    if sections != [] {
      AbsentKey(key, sections[1..]);
      FirstSection(key, sections);
    }
  }

  /** Every field can be read off the pairs by its key, with all its values in order. */
  lemma {:induction false} SectionReadsBack(sections: seq<Section>, i: nat)
    requires DistinctSections(sections) && i < |sections|
    ensures ValuesOf(sections[i].key, Flatten(sections)) == sections[i].values
    decreases |sections|
  {
    FirstSection(sections[i].key, sections);
    if i == 0 {
      AbsentKey(sections[i].key, sections[1..]);
    } else {
      SectionReadsBack(sections[1..], i - 1);
    }
  }

  lemma SameNumbers(a: seq<nat>, b: seq<nat>)
    requires Numbers(a) == Numbers(b)
    ensures a == b
  {
    assert |a| == |b|;
    forall i | 0 <= i < |a| ensures a[i] == b[i] {
      assert Numbers(a)[i] == Numbers(b)[i];
      NatReadsBack(a[i]);
      NatReadsBack(b[i]);
    }
  }

  lemma SectionsAreDistinct(q: TaskRead)
    ensures DistinctSections(Sections(q))
  {
    var s := Sections(q);
    assert |s[0].key| == 6 && |s[1].key| == 8 && |s[2].key| == 5 && |s[3].key| == 11 && |s[4].key| == 8;
    assert |s[5].key| == 1 && |s[6].key| == 16 && |s[7].key| == 5 && |s[8].key| == 6 && |s[9].key| == 4;
    assert s[0].key[0] == 's' && s[8].key[0] == 'o' && s[1].key[0] == 'p' && s[4].key[0] == 'a';
    assert s[2].key[1] == 'a' && s[7].key[1] == 'i';
  }

  /** Equal pair lists come from equal fields. */
  lemma SameSections(a: seq<Section>, b: seq<Section>)
    requires DistinctSections(a) && DistinctSections(b) && |a| == |b| && Flatten(a) == Flatten(b)
    requires forall i :: 0 <= i < |a| ==> a[i].key == b[i].key
    ensures a == b
  {
    forall i | 0 <= i < |a| ensures a[i] == b[i] {
      SectionReadsBack(a, i);
      SectionReadsBack(b, i);
    }
  }

  lemma SameNumber(m: nat, n: nat)
    requires [Number(m)] == [Number(n)]
    ensures m == n
  {
    NatReadsBack(m);
    NatReadsBack(n);
    assert [Number(m)][0] == [Number(n)][0];
  }

  lemma SameOptional(a: Option<ByteText>, b: Option<ByteText>)
    requires Optional(a) == Optional(b)
    ensures a == b
  {
    assert a.Some? ==> Optional(a)[0] == a.value;
    assert b.Some? ==> Optional(b)[0] == b.value;
  }

  lemma SameBool(a: bool, b: bool)
    requires [BoolText(a)] == [BoolText(b)]
    ensures a == b
  {
    assert |[BoolText(a)][0]| == |[BoolText(b)][0]|;
  }

  /** Distinct queries have distinct pair lists. */
  lemma PairsDetermineQuery(a: TaskRead, b: TaskRead)
    requires Flatten(Sections(a)) == Flatten(Sections(b))
    ensures a == b
  {
    SectionsAreDistinct(a);
    SectionsAreDistinct(b);
    SameSections(Sections(a), Sections(b));
    SectionsDetermineQuery(a, b);
  }

  lemma SectionsDetermineQuery(a: TaskRead, b: TaskRead)
    requires Sections(a) == Sections(b)
    ensures a == b
  {
    var sa, sb := Sections(a), Sections(b);
    assert sa[0].values == sb[0].values && sa[2].values == sb[2].values && sa[3].values == sb[3].values;
    assert sa[1].values == sb[1].values && sa[4].values == sb[4].values && sa[5].values == sb[5].values;
    SameNumbers(a.priorities, b.priorities);
    SameOptional(a.assignee, b.assignee);
    SameOptional(a.search, b.search);
    assert sa[6].values == sb[6].values && sa[7].values == sb[7].values && sa[8].values == sb[8].values;
    SameBool(a.includeArchived, b.includeArchived);
    SameNumber(a.limit, b.limit);
    SameNumber(a.offset, b.offset);
    assert sa[9].values == sb[9].values && [a.sort][0] == [b.sort][0];
  }

  // ----- the pairs, one by one

  lemma {:induction false} TagIs(key: string, values: seq<ByteText>, i: nat)
    requires i < |values|
    ensures |Tag(key, values)| == |values| && Tag(key, values)[i] == Pair(key, values[i])
    decreases |values|
  {
    if |values| > 1 {
      TagIs(key, values[1..], if i > 0 then i - 1 else 0);
    }
  }

  lemma NumbersAre(ns: seq<nat>, i: nat)
    requires i < |ns|
    ensures |Numbers(ns)| == |ns| && Numbers(ns)[i] == NatText(ns[i])
  {
  }

  /** One value under a key. */
  function One(key: string, value: ByteText): seq<Pair> {
    [Pair(key, value)]
  }

  /** The pairs of a task query, in the order in which they are sent. */
  lemma TaskPairsAre(q: TaskRead)
    ensures Flatten(Sections(q)) ==
            Tag("status", q.statuses) + (Tag("priority", Numbers(q.priorities)) + (Tag("label", q.labels) +
            (Tag("plan_filter", q.planFilters) +
            ((if q.assignee.Some? then One("assignee", q.assignee.value) else []) +
            ((if q.search.Some? then One("q", q.search.value) else []) +
            (One("include_archived", if q.includeArchived then "true" else "false") +
            (One("limit", NatText(q.limit)) + (One("offset", NatText(q.offset)) + One("sort", q.sort)))))))))
  {
    FlattenTen(Sections(q));
    OneTag("assignee", q.assignee);
    OneTag("q", q.search);
    TagOne("include_archived", BoolText(q.includeArchived));
    TagOne("limit", NatText(q.limit));
    TagOne("offset", NatText(q.offset));
    TagOne("sort", q.sort);
  }

  lemma TagOne(key: string, value: ByteText)
    ensures Tag(key, [value]) == One(key, value)
  {
    assert [value][1..] == [];
    assert Tag(key, [value]) == [Pair(key, value)] + [];
  }

  lemma OneTag(key: string, value: Option<ByteText>)
    ensures Tag(key, Optional(value)) == if value.Some? then One(key, value.value) else []
  {
    if value.Some? {
      TagOne(key, value.value);
    }
  }

  function TagOf(section: Section): seq<Pair> {
    Tag(section.key, section.values)
  }

  lemma FlattenTwo(s: seq<Section>)
    requires |s| >= 2
    ensures Flatten(s) == TagOf(s[0]) + (TagOf(s[1]) + Flatten(s[2..]))
  {
    assert s[1..][1..] == s[2..];
  }

  lemma FlattenTen(s: seq<Section>)
    requires |s| == 10
    ensures Flatten(s) == TagOf(s[0]) + (TagOf(s[1]) + (TagOf(s[2]) + (TagOf(s[3]) + (TagOf(s[4]) + (TagOf(s[5]) +
                          (TagOf(s[6]) + (TagOf(s[7]) + (TagOf(s[8]) + TagOf(s[9])))))))))
  {
    FlattenTwo(s);
    FlattenTwo(s[2..]);
    FlattenTwo(s[2..][2..]);
    FlattenTwo(s[2..][2..][2..]);
    FlattenTwo(s[2..][2..][2..][2..]);
    var last := s[2..][2..][2..][2..][2..];
    assert last == [] && TagOf(s[9]) + [] == TagOf(s[9]);
  }

  // ----- the program

  method PushAll(pairs: seq<Pair>, key: string, values: seq<ByteText>) returns (pairs': seq<Pair>)
    ensures pairs' == pairs + Tag(key, values)
  {
    pairs' := pairs;
    for i := 0 to |values|
      invariant pairs' + Tag(key, values[i..]) == pairs + Tag(key, values)
    {
      assert values[i..][1..] == values[i + 1..];
      assert pairs' + ([Pair(key, values[i])] + Tag(key, values[i + 1..])) ==
        pairs' + [Pair(key, values[i])] + Tag(key, values[i + 1..]);
      pairs' := pairs' + [Pair(key, values[i])];
    }
  }

  lemma {:induction false} FlattenFirst(sections: seq<Section>, n: nat)
    requires n < |sections|
    ensures Flatten(sections[..n + 1]) == Flatten(sections[..n]) + Tag(sections[n].key, sections[n].values)
    decreases n
  {
    if n > 0 {
      FlattenFirst(sections[1..], n - 1);
      assert sections[..n + 1][1..] == sections[1..][..n] && sections[..n][1..] == sections[1..][..n - 1];
    } else {
      assert sections[..1][1..] == [];
    }
  }

  /** The pairs after the first `n` fields of `sections` have been pushed. */
  method Push(pairs: seq<Pair>, key: string, values: seq<ByteText>, ghost sections: seq<Section>, ghost n: nat)
    returns (pairs': seq<Pair>)
    requires n < |sections| && sections[n] == Section(key, values) && pairs == Flatten(sections[..n])
    ensures pairs' == Flatten(sections[..n + 1])
  {
    FlattenFirst(sections, n);
    pairs' := PushAll(pairs, key, values);
  }

  /** A field that may be absent. */
  method PushOptional(pairs: seq<Pair>, key: string, value: Option<ByteText>, ghost sections: seq<Section>,
                      ghost n: nat)
    returns (pairs': seq<Pair>)
    requires n < |sections| && sections[n] == Section(key, Optional(value)) && pairs == Flatten(sections[..n])
    ensures pairs' == Flatten(sections[..n + 1])
  {
    FlattenFirst(sections, n);
    pairs' := pairs;
    if value.Some? {
      pairs' := pairs + [Pair(key, value.value)];
    }
  }

  /** The filters of `task_read_path`, each of which may be absent. */
  method TaskReadFilters(q: TaskRead) returns (pairs: seq<Pair>)
    ensures pairs == Flatten(Sections(q)[..6])
  {
    ghost var s := Sections(q);
    pairs := Push([], "status", q.statuses, s, 0);
    pairs := Push(pairs, "priority", Numbers(q.priorities), s, 1);
    pairs := Push(pairs, "label", q.labels, s, 2);
    pairs := Push(pairs, "plan_filter", q.planFilters, s, 3);
    pairs := PushOptional(pairs, "assignee", q.assignee, s, 4);
    pairs := PushOptional(pairs, "q", q.search, s, 5);
  }

  /** The pairs of `task_read_path`. */
  method TaskReadPairs(q: TaskRead) returns (pairs: seq<Pair>)
    ensures pairs == Flatten(Sections(q))
  {
    ghost var s := Sections(q);
    pairs := TaskReadFilters(q);
    pairs := Push(pairs, "include_archived", [if q.includeArchived then "true" else "false"], s, 6);
    pairs := Push(pairs, "limit", [NatText(q.limit)], s, 7);
    pairs := Push(pairs, "offset", [NatText(q.offset)], s, 8);
    pairs := Push(pairs, "sort", [q.sort], s, 9);
    assert s[..10] == s;
  }

  /** `task_read_path`; the route is given by what stands before and after its board placeholder. */
  method TaskReadPath(before: string, after: string, board: ByteText, q: TaskRead) returns (path: string)
    ensures path == before + Encode(board) + after + "?" + QueryText(Flatten(Sections(q)))
  {
    var pairs := TaskReadPairs(q);
    var encoded := EncodePathSegment(board);
    path := before + encoded + after + "?" + QueryText(pairs);
  }

  const BOARDS := "/api/v1/boards/"

  function TasksSuffix(byStatus: bool): string {
    if byStatus then "/tasks/by-status" else "/tasks"
  }

  function TasksPath(board: ByteText, q: TaskRead, byStatus: bool): string {
    BOARDS + Encode(board) + TasksSuffix(byStatus) + "?" + QueryText(Flatten(Sections(q)))
  }

  /** `list_tasks_path` and `list_tasks_by_status_path`. */
  method ListTasksPath(board: ByteText, q: TaskRead, byStatus: bool) returns (path: string)
    ensures path == TasksPath(board, q, byStatus)
  {
    path := TaskReadPath(BOARDS, TasksSuffix(byStatus), board, q);
  }

  function TasksSegments(board: ByteText, byStatus: bool): seq<string> {
    ["", "api", "v1", "boards", Encode(board)] + if byStatus then ["tasks", "by-status"] else ["tasks"]
  }

  lemma {:induction false} JoinBoth(a: seq<string>, b: seq<string>)
    requires a != [] && b != []
    ensures Join(a + b, '/') == Join(a, '/') + "/" + Join(b, '/')
    decreases |a|
  {
    if |a| == 1 {
      assert (a + b)[1..] == b;
    } else {
      JoinBoth(a[1..], b);
      assert (a + b)[1..] == a[1..] + b;
    }
  }

  lemma JoinOne(head: string, tail: seq<string>)
    requires tail != []
    ensures Join([head] + tail, '/') == head + "/" + Join(tail, '/')
  {
  }

  lemma JoinFour()
    ensures Join(["", "api", "v1", "boards"], '/') + "/" == BOARDS
  {
    assert ["v1", "boards"][1..] == ["boards"];
    JoinOne("api", ["v1", "boards"]);
    JoinOne("", ["api", "v1", "boards"]);
  }

  lemma JoinTail(byStatus: bool)
    ensures "/" + Join(if byStatus then ["tasks", "by-status"] else ["tasks"], '/') == TasksSuffix(byStatus)
  {
    assert ["tasks", "by-status"][1..] == ["by-status"];
    assert Join(["tasks", "by-status"], '/') == "tasks/by-status";
  }

  lemma TasksRoute(board: ByteText, byStatus: bool)
    ensures Join(TasksSegments(board, byStatus), '/') == BOARDS + Encode(board) + TasksSuffix(byStatus)
  {
    var root, enc, tail :=
      ["", "api", "v1", "boards"], [Encode(board)], if byStatus then ["tasks", "by-status"] else ["tasks"];
    assert TasksSegments(board, byStatus) == root + (enc + tail);
    JoinBoth(root, enc + tail);
    JoinBoth(enc, tail);
    JoinFour();
    JoinTail(byStatus);
    Regroup(Join(root, '/'), "/", Encode(board), "/", Join(tail, '/'));
  }

  lemma Regroup(a: string, b: string, c: string, d: string, e: string)
    ensures a + b + (c + d + e) == (a + b) + c + (d + e)
  {
  }

  lemma SegmentsArePlain(board: ByteText, byStatus: bool)
    ensures forall i :: 0 <= i < |TasksSegments(board, byStatus)| ==>
              '/' !in TasksSegments(board, byStatus)[i] && '?' !in TasksSegments(board, byStatus)[i]
  {
    EncodedIsPlain(board, '/');
    EncodedIsPlain(board, '?');
  }

  lemma KeysArePlain(keys: seq<string>)
    requires keys == ["status", "priority", "label", "plan_filter", "assignee", "q"]
          || keys == ["include_archived", "limit", "offset", "sort", "board"]
    ensures forall i :: 0 <= i < |keys| ==> PlainKey(keys[i])
  {
  }

  lemma TaskKeysArePlain(q: TaskRead)
    ensures Flatten(Sections(q)) != []
    ensures forall i :: 0 <= i < |Flatten(Sections(q))| ==> PlainKey(Flatten(Sections(q))[i].key)
  {
    var a, b, s := ["status", "priority", "label", "plan_filter", "assignee", "q"],
                   ["include_archived", "limit", "offset", "sort", "board"], Sections(q);
    KeysArePlain(a);
    KeysArePlain(b);
    forall i | 0 <= i < |s| ensures PlainKey(s[i].key) {
      assert s[i].key == if i < 6 then a[i] else b[i - 6];
    }
    FlattenNotEmpty(s, 9);
    FlattenedKeys(s);
  }

  lemma SearchKeysArePlain(q: SearchRead)
    ensures Flatten(SearchSections(q)) != []
    ensures forall i :: 0 <= i < |Flatten(SearchSections(q))| ==> PlainKey(Flatten(SearchSections(q))[i].key)
  {
    var a, b, s := ["status", "priority", "label", "plan_filter", "assignee", "q"],
                   ["include_archived", "limit", "offset", "sort", "board"], SearchSections(q);
    KeysArePlain(a);
    KeysArePlain(b);
    assert s[0].key == b[4] && s[1].key == a[5] && s[2].key == a[0] && s[3].key == a[2];
    assert s[4].key == a[4] && s[5].key == b[0] && s[6].key == b[1] && s[7].key == b[2];
    FlattenNotEmpty(s, 0);
    FlattenedKeys(s);
  }

  /** The request of a task query: its segments, with the board decoding back, and its exact pair list. */
  lemma TasksPathReadsBack(board: ByteText, q: TaskRead, byStatus: bool)
    ensures ReadRequest(TasksPath(board, q, byStatus)) == Some((TasksSegments(board, byStatus), Flatten(Sections(q))))
    ensures Decode(TasksSegments(board, byStatus)[4]) == Some(board)
  {
    DecodesBack(board);
    SegmentsArePlain(board, byStatus);
    TaskKeysArePlain(q);
    TasksRoute(board, byStatus);
    RequestReadsBack(TasksSegments(board, byStatus), Flatten(Sections(q)));
  }

  lemma {:induction false} FlattenedKeys(sections: seq<Section>)
    requires forall i :: 0 <= i < |sections| ==> PlainKey(sections[i].key)
    ensures forall i :: 0 <= i < |Flatten(sections)| ==> PlainKey(Flatten(sections)[i].key)
    decreases |sections|
  {
    if sections != [] {
      FlattenedKeys(sections[1..]);
      TagKeys(sections[0].key, sections[0].values);
    }
  }

  lemma {:induction false} FlattenNotEmpty(sections: seq<Section>, i: nat)
    requires i < |sections| && sections[i].values != []
    ensures Flatten(sections) != []
    decreases |sections|
  {
    if i > 0 {
      FlattenNotEmpty(sections[1..], i - 1);
    }
  }

  lemma {:induction false} TagKeys(key: string, values: seq<ByteText>)
    ensures forall i :: 0 <= i < |Tag(key, values)| ==> Tag(key, values)[i].key == key
    ensures |Tag(key, values)| == |values|
    decreases |values|
  {
    if values != [] {
      TagKeys(key, values[1..]);
    }
  }

  /** Distinct boards or queries, or the two routes, never share a path. */
  lemma TasksPathsAreDistinct(board: ByteText, q: TaskRead, byStatus: bool, board': ByteText, q': TaskRead,
                              byStatus': bool)
    requires TasksPath(board, q, byStatus) == TasksPath(board', q', byStatus')
    ensures board == board' && q == q' && byStatus == byStatus'
  {
    TasksPathReadsBack(board, q, byStatus);
    TasksPathReadsBack(board', q', byStatus');
    var s, s' := TasksSegments(board, byStatus), TasksSegments(board', byStatus');
    assert s == s' && |s| == |s'| && s[4] == s'[4];
    PairsDetermineQuery(q, q');
  }

  // ----- search

  datatype SearchRead = SearchRead(
    board: ByteText, search: Option<ByteText>, statuses: seq<ByteText>, labels: seq<ByteText>,
    assignee: Option<ByteText>, includeArchived: bool, limit: nat, offset: nat)

  function SearchSections(q: SearchRead): seq<Section> {
    [Section("board", [q.board]), Section("q", Optional(q.search)), Section("status", q.statuses),
     Section("label", q.labels), Section("assignee", Optional(q.assignee)),
     Section("include_archived", [BoolText(q.includeArchived)]),
     Section("limit", [Number(q.limit)]), Section("offset", [Number(q.offset)])]
  }

  const SEARCH := "/api/v1/search"

  function SearchPath(q: SearchRead, byStatus: bool): string {
    SEARCH + TasksSuffix(byStatus) + "?" + QueryText(Flatten(SearchSections(q)))
  }

  /** The board and the filters of `search_tasks_path`. */
  method SearchFilters(q: SearchRead) returns (pairs: seq<Pair>)
    ensures pairs == Flatten(SearchSections(q)[..5])
  {
    ghost var s := SearchSections(q);
    pairs := Push([], "board", [q.board], s, 0);
    pairs := PushOptional(pairs, "q", q.search, s, 1);
    pairs := Push(pairs, "status", q.statuses, s, 2);
    pairs := Push(pairs, "label", q.labels, s, 3);
    pairs := PushOptional(pairs, "assignee", q.assignee, s, 4);
  }

  /** `search_tasks_path`. */
  method SearchTasksPath(q: SearchRead, byStatus: bool) returns (path: string)
    ensures path == SearchPath(q, byStatus)
  {
    ghost var s := SearchSections(q);
    var pairs := SearchFilters(q);
    pairs := Push(pairs, "include_archived", [if q.includeArchived then "true" else "false"], s, 5);
    pairs := Push(pairs, "limit", [NatText(q.limit)], s, 6);
    pairs := Push(pairs, "offset", [NatText(q.offset)], s, 7);
    assert s[..8] == s;
    path := SEARCH + TasksSuffix(byStatus) + "?" + QueryText(pairs);
  }

  function SearchSegments(byStatus: bool): seq<string> {
    ["", "api", "v1", "search"] + if byStatus then ["tasks", "by-status"] else ["tasks"]
  }

  lemma JoinSearch()
    ensures Join(["", "api", "v1", "search"], '/') == SEARCH
  {
    assert ["v1", "search"][1..] == ["search"];
    JoinOne("api", ["v1", "search"]);
    JoinOne("", ["api", "v1", "search"]);
  }

  lemma SearchRoute(byStatus: bool)
    ensures Join(SearchSegments(byStatus), '/') == SEARCH + TasksSuffix(byStatus)
  {
    var root, tail := ["", "api", "v1", "search"], if byStatus then ["tasks", "by-status"] else ["tasks"];
    JoinBoth(root, tail);
    JoinSearch();
    JoinTail(byStatus);
    assert SEARCH + "/" + Join(tail, '/') == SEARCH + ("/" + Join(tail, '/'));
  }

  lemma SearchSegmentsArePlain(byStatus: bool)
    ensures forall i :: 0 <= i < |SearchSegments(byStatus)| ==>
              '/' !in SearchSegments(byStatus)[i] && '?' !in SearchSegments(byStatus)[i]
  {
  }

  /** The request of a search: its route and its exact pair list. */
  lemma SearchPathReadsBack(q: SearchRead, byStatus: bool)
    ensures ReadRequest(SearchPath(q, byStatus)) == Some((SearchSegments(byStatus), Flatten(SearchSections(q))))
  {
    SearchKeysArePlain(q);
    SearchSegmentsArePlain(byStatus);
    SearchRoute(byStatus);
    RequestReadsBack(SearchSegments(byStatus), Flatten(SearchSections(q)));
  }

  lemma SearchSectionsAreDistinct(q: SearchRead)
    ensures DistinctSections(SearchSections(q))
  {
    var s := SearchSections(q);
    assert |s[0].key| == 5 && |s[1].key| == 1 && |s[2].key| == 6 && |s[3].key| == 5;
    assert |s[4].key| == 8 && |s[5].key| == 16 && |s[6].key| == 5 && |s[7].key| == 6;
    assert s[0].key[0] == 'b' && s[3].key[0] == 'l' && s[6].key[0] == 'l' && s[2].key[0] == 's' && s[7].key[0] == 'o';
    assert s[3].key[1] == 'a' && s[6].key[1] == 'i';
  }

  lemma SearchSectionsDetermineQuery(a: SearchRead, b: SearchRead)
    requires SearchSections(a) == SearchSections(b)
    ensures a == b
  {
    var sa, sb := SearchSections(a), SearchSections(b);
    assert sa[0].values == sb[0].values && [a.board][0] == [b.board][0];
    assert sa[1].values == sb[1].values && sa[2].values == sb[2].values && sa[3].values == sb[3].values;
    assert sa[4].values == sb[4].values && sa[5].values == sb[5].values;
    SameOptional(a.search, b.search);
    SameOptional(a.assignee, b.assignee);
    assert sa[6].values == sb[6].values && sa[7].values == sb[7].values;
    SameBool(a.includeArchived, b.includeArchived);
    SameNumber(a.limit, b.limit);
    SameNumber(a.offset, b.offset);
  }

  /** Distinct searches have distinct pair lists. */
  lemma SearchPairsDetermineQuery(a: SearchRead, b: SearchRead)
    requires Flatten(SearchSections(a)) == Flatten(SearchSections(b))
    ensures a == b
  {
    SearchSectionsAreDistinct(a);
    SearchSectionsAreDistinct(b);
    SameSections(SearchSections(a), SearchSections(b));
    SearchSectionsDetermineQuery(a, b);
  }

  /** Distinct searches, or the two routes, never share a path. */
  lemma SearchPathsAreDistinct(a: SearchRead, byStatus: bool, b: SearchRead, byStatus': bool)
    requires SearchPath(a, byStatus) == SearchPath(b, byStatus')
    ensures a == b && byStatus == byStatus'
  {
    SearchPathReadsBack(a, byStatus);
    SearchPathReadsBack(b, byStatus');
    assert |SearchSegments(byStatus)| == |SearchSegments(byStatus')|;
    SearchPairsDetermineQuery(a, b);
  }

  /** The pairs of a search, in the order in which they are sent. */
  lemma SearchPairsAre(q: SearchRead)
    ensures Flatten(SearchSections(q)) ==
            One("board", q.board) + ((if q.search.Some? then One("q", q.search.value) else []) +
            (Tag("status", q.statuses) + (Tag("label", q.labels) +
            ((if q.assignee.Some? then One("assignee", q.assignee.value) else []) +
            (One("include_archived", if q.includeArchived then "true" else "false") +
            (One("limit", NatText(q.limit)) + One("offset", NatText(q.offset))))))))
  {
    FlattenEight(SearchSections(q));
    TagOne("board", q.board);
    OneTag("q", q.search);
    OneTag("assignee", q.assignee);
    TagOne("include_archived", BoolText(q.includeArchived));
    TagOne("limit", NatText(q.limit));
    TagOne("offset", NatText(q.offset));
  }

  lemma FlattenEight(s: seq<Section>)
    requires |s| == 8
    ensures Flatten(s) == TagOf(s[0]) + (TagOf(s[1]) + (TagOf(s[2]) + (TagOf(s[3]) + (TagOf(s[4]) + (TagOf(s[5]) +
                          (TagOf(s[6]) + TagOf(s[7])))))))
  {
    FlattenTwo(s);
    FlattenTwo(s[2..]);
    FlattenTwo(s[2..][2..]);
    FlattenTwo(s[2..][2..][2..]);
    var last := s[2..][2..][2..][2..];
    assert last == [] && TagOf(s[7]) + [] == TagOf(s[7]);
  }
}
