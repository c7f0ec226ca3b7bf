/** The numeric policy of the Web contracts: finding the first unsafe number of a value, and naming it by a JSON
    Pointer (sections 3 and 4 of RFC 6901). */
module JsonNumbers {
  import opened Wrappers
  import opened Json
  import opened StringOrder
  import opened Text

  const MAX_SAFE := 9_007_199_254_740_991

  predicate IsInteger(r: real) {
    r.Floor as real == r
  }

  /** Not finite, or an integer beyond the safe ones. */
  predicate Unsafe(num: Num) {
    num.NonFinite? || (IsInteger(num.value) && !(-MAX_SAFE <= num.value.Floor <= MAX_SAFE))
  }

  /** Integers are safe from -(2^53 - 1) to 2^53 - 1. */
  lemma UnsafeInteger(n: int)
    ensures Unsafe(Finite(n as real)) <==> n < -9_007_199_254_740_991 || n > 9_007_199_254_740_991
  {
    assert (n as real).Floor == n;
  }

  /** Other finite numbers are always safe, non-finite ones never. */
  lemma UnsafeOther(r: real)
    ensures r.Floor as real != r ==> !Unsafe(Finite(r))
    ensures Unsafe(NonFinite)
  {
  }

  ghost predicate HasUnsafe(v: Json) {
    match v
    case Number(num) => Unsafe(num)
    case Array(items) => exists i :: 0 <= i < |items| && HasUnsafe(items[i])
    case Object(ms) => exists i :: 0 <= i < |ms| && HasUnsafe(ms[i].value)
    case _ => false
  }

  // ----- escaping of reference tokens

  /** `replaceAll` of one character. */
  function ReplaceAll(s: string, c: char, with: string): string {
    if s == [] then [] else (if s[0] == c then with else [s[0]]) + ReplaceAll(s[1..], c, with)
  }

  function EscapeToken(key: string): string {
    ReplaceAll(ReplaceAll(key, '~', "~0"), '/', "~1")
  }

  /** Replaces every `ab`, from the left. */
  function ReplacePair(s: string, a: char, b: char, with: char): string {
    if s == [] then []
    else if |s| > 1 && s[0] == a && s[1] == b then [with] + ReplacePair(s[2..], a, b, with)
    else [s[0]] + ReplacePair(s[1..], a, b, with)
  }

  /** Section 4 of RFC 6901: first `~1` becomes `/`, then `~0` becomes `~`. */
  function UnescapeToken(token: string): string {
    ReplacePair(ReplacePair(token, '~', '1', '/'), '~', '0', '~')
  }

  // ----- the walk

  function Width(v: Json): nat {
    match v
    case Array(items) => |items|
    case Object(ms) => |ms|
    case _ => 0
  }

  /** The reference tokens that lead to the first unsafe number in document order. */
  function FirstUnsafe(v: Json): Option<seq<string>>
    decreases v, Width(v) + 1
  {
    match v
    case Number(num) => if Unsafe(num) then Some([]) else None
    case Array(items) => FirstInItems(v, 0)
    case Object(ms) => FirstInMembers(v, 0)
    case _ => None
  }

  function FirstInItems(v: Json, i: nat): Option<seq<string>>
    requires v.Array? && i <= |v.items|
    decreases v, Width(v) - i
  {
    if i == |v.items| then None
    else
      match FirstUnsafe(v.items[i])
      case Some(tokens) => Some([NatText(i)] + tokens)
      case None => FirstInItems(v, i + 1)
  }

  function FirstInMembers(v: Json, i: nat): Option<seq<string>>
    requires v.Object? && i <= |v.members|
    decreases v, Width(v) - i
  {
    if i == |v.members| then None
    else
      match FirstUnsafe(v.members[i].value)
      case Some(tokens) => Some([v.members[i].key] + tokens)
      case None => FirstInMembers(v, i + 1)
  }

  function Pointer(tokens: seq<string>): string {
    if tokens == [] then [] else "/" + EscapeToken(tokens[0]) + Pointer(tokens[1..])
  }

  /** The reported path: `path || "/"` at the number that was found. */
  function Reported(path: string, found: Option<seq<string>>): Option<string> {
    match found
    case None => None
    case Some(tokens) => Some(if path + Pointer(tokens) == [] then "/" else path + Pointer(tokens))
  }

  lemma {:induction false} PlainTokensStay(s: string)
    requires forall i :: 0 <= i < |s| ==> IsDigit(s[i])
    ensures ReplaceAll(s, '~', "~0") == s && ReplaceAll(s, '/', "~1") == s
  {
    if s != [] {
      PlainTokensStay(s[1..]);
    }
  }

  lemma DescendReport(path: string, token: string, tokens: seq<string>)
    ensures Reported(path, Some([token] + tokens)) == Reported(path + "/" + EscapeToken(token), Some(tokens))
  {
    assert ([token] + tokens)[1..] == tokens;
    assert path + ("/" + EscapeToken(token) + Pointer(tokens)) == path + "/" + EscapeToken(token) + Pointer(tokens);
  }

  /** `unsafeNumberPath`. */
  method UnsafeNumberPath(value: Json, path: string) returns (r: Option<string>)
    ensures r == Reported(path, FirstUnsafe(value))
    decreases value
  {
    match value {
    case Number(num) =>
      if Unsafe(num) {
        assert path + Pointer([]) == path;
        return Some(if path == [] then "/" else path);
      }
    case Array(items) =>
      for index := 0 to |items|
        invariant FirstInItems(value, index) == FirstUnsafe(value)
      {
        PlainTokensStay(NatText(index));
        var unsafe := UnsafeNumberPath(items[index], path + "/" + NatText(index));
        if unsafe.Some? {
          DescendReport(path, NatText(index), FirstUnsafe(items[index]).value);
          return unsafe;
        }
      }
    case Object(members) =>
      for index := 0 to |members|
        invariant FirstInMembers(value, index) == FirstUnsafe(value)
      {
        var escaped := ReplaceAll(ReplaceAll(members[index].key, '~', "~0"), '/', "~1");
        var unsafe := UnsafeNumberPath(members[index].value, path + "/" + escaped);
        if unsafe.Some? {
          DescendReport(path, members[index].key, FirstUnsafe(members[index].value).value);
          return unsafe;
        }
      }
    case _ =>
    }
    return None;
  }

  // ----- nothing unsafe is missed

  lemma {:induction false} FoundIffUnsafe(v: Json)
    ensures FirstUnsafe(v).Some? <==> HasUnsafe(v)
    decreases v, Width(v) + 1
  {
    match v
    case Array(items) => FoundInItems(v, 0);
    case Object(ms) => FoundInMembers(v, 0);
    case _ =>
  }

  lemma {:induction false} FoundInItems(v: Json, i: nat)
    requires v.Array? && i <= |v.items|
    ensures FirstInItems(v, i).Some? <==> exists k :: i <= k < |v.items| && HasUnsafe(v.items[k])
    decreases v, Width(v) - i
  {
    if i < |v.items| {
      FoundIffUnsafe(v.items[i]);
      FoundInItems(v, i + 1);
    }
  }

  lemma {:induction false} FoundInMembers(v: Json, i: nat)
    requires v.Object? && i <= |v.members|
    ensures FirstInMembers(v, i).Some? <==> exists k :: i <= k < |v.members| && HasUnsafe(v.members[k].value)
    decreases v, Width(v) - i
  {
    if i < |v.members| {
      FoundIffUnsafe(v.members[i].value);
      FoundInMembers(v, i + 1);
    }
  }

  // ----- the pointer resolves

  function Lookup(ms: seq<Member>, key: string): Option<Json> {
    if ms == [] then None else if ms[0].key == key then Some(ms[0].value) else Lookup(ms[1..], key)
  }

  function Child(v: Json, key: string): Option<Json> {
    match v
    case Array(items) =>
      (match TextNat(key)
       case Some(i) => if i < |items| then Some(items[i]) else None
       case None => None)
    case Object(ms) => Lookup(ms, key)
    case _ => None
  }

  /** The value that a list of reference tokens, not yet unescaped, leads to. */
  function Walk(v: Json, tokens: seq<string>): Option<Json>
    decreases |tokens|
  {
    if tokens == [] then Some(v)
    else
      match Child(v, UnescapeToken(tokens[0]))
      case Some(child) => Walk(child, tokens[1..])
      case None => None
  }

  /** Section 4 of RFC 6901. */
  function Resolve(v: Json, pointer: string): Option<Json> {
    if pointer == [] then Some(v)
    else if pointer[0] != '/' then None
    else Walk(v, Split(pointer[1..], '/'))
  }

  /** The path leads, at every level, to the first child that holds an unsafe number. */
  ghost predicate IsFirstPath(v: Json, tokens: seq<string>)
    decreases v
  {
    match v
    case Number(num) => tokens == [] && Unsafe(num)
    case Array(items) =>
      tokens != [] && exists i: nat ::
        && i < |items| && tokens[0] == NatText(i) && IsFirstPath(items[i], tokens[1..])
        && forall k :: 0 <= k < i ==> !HasUnsafe(items[k])
    case Object(ms) =>
      tokens != [] && exists i: nat ::
        && i < |ms| && tokens[0] == ms[i].key && IsFirstPath(ms[i].value, tokens[1..])
        && forall k :: 0 <= k < i ==> !HasUnsafe(ms[k].value)
    case _ => false
  }

  /** The walk reports the first unsafe number in document order. */
  lemma {:induction false} FoundIsFirst(v: Json)
    requires FirstUnsafe(v).Some?
    ensures IsFirstPath(v, FirstUnsafe(v).value)
    decreases v, Width(v) + 1
  {
    match v
    case Array(items) => FirstItemIsFirst(v, 0);
    case Object(ms) => FirstMemberIsFirst(v, 0);
    case _ =>
  }

  lemma {:induction false} FirstItemIsFirst(v: Json, i: nat)
    requires v.Array? && i <= |v.items| && FirstInItems(v, i).Some?
    requires forall k :: 0 <= k < i ==> !HasUnsafe(v.items[k])
    ensures IsFirstPath(v, FirstInItems(v, i).value)
    decreases v, Width(v) - i
  {
    var child := v.items[i];
    FoundIffUnsafe(child);
    if FirstUnsafe(child).Some? {
      FoundIsFirst(child);
      var rest := FirstUnsafe(child).value;
      assert ([NatText(i)] + rest)[1..] == rest;
    } else {
      FirstItemIsFirst(v, i + 1);
    }
  }

  lemma {:induction false} FirstMemberIsFirst(v: Json, i: nat)
    requires v.Object? && i <= |v.members| && FirstInMembers(v, i).Some?
    requires forall k :: 0 <= k < i ==> !HasUnsafe(v.members[k].value)
    ensures IsFirstPath(v, FirstInMembers(v, i).value)
    decreases v, Width(v) - i
  {
    var child := v.members[i].value;
    FoundIffUnsafe(child);
    if FirstUnsafe(child).Some? {
      FoundIsFirst(child);
      var rest := FirstUnsafe(child).value;
      assert ([v.members[i].key] + rest)[1..] == rest;
    } else {
      FirstMemberIsFirst(v, i + 1);
    }
  }

  lemma {:induction false} SecondPassUndone(s: string)
    ensures ReplacePair(EscapeToken(s), '~', '1', '/') == ReplaceAll(s, '~', "~0")
    decreases |s|
  {
    if s != [] {
      SecondPassUndone(s[1..]);
      EscapeOne(s[0], s[1..]);
      assert [s[0]] + s[1..] == s;
      var rest := EscapeToken(s[1..]);
      if s[0] == '~' {
        assert ("~0" + rest)[1..] == ['0'] + rest;
      }
    }
  }

  lemma EscapeOne(c: char, rest: string)
    ensures EscapeToken([c] + rest) == (if c == '~' then "~0" else if c == '/' then "~1" else [c]) + EscapeToken(rest)
  {
    var once := ReplaceAll(rest, '~', "~0");
    ReplaceOne(c, rest, '~', "~0");
    if c == '~' {
      assert "~0" + once == ['~'] + (['0'] + once);
      ReplaceOne('~', ['0'] + once, '/', "~1");
      ReplaceOne('0', once, '/', "~1");
      assert ['~'] + (['0'] + EscapeToken(rest)) == "~0" + EscapeToken(rest);
    } else {
      ReplaceOne(c, once, '/', "~1");
    }
  }

  lemma ReplaceOne(c: char, rest: string, d: char, with: string)
    ensures ReplaceAll([c] + rest, d, with) == (if c == d then with else [c]) + ReplaceAll(rest, d, with)
  {
    assert ([c] + rest)[1..] == rest;
  }

  lemma {:induction false} FirstPassUndone(s: string)
    ensures ReplacePair(ReplaceAll(s, '~', "~0"), '~', '0', '~') == s
    decreases |s|
  {
    if s != [] {
      FirstPassUndone(s[1..]);
      var rest := ReplaceAll(s[1..], '~', "~0");
      if s[0] == '~' {
        assert ("~0" + rest)[2..] == rest;
      } else {
        assert ([s[0]] + rest)[1..] == rest;
      }
    }
  }

  lemma EscapeReadsBack(key: string)
    ensures UnescapeToken(EscapeToken(key)) == key
  {
    SecondPassUndone(key);
    FirstPassUndone(key);
  }

  lemma {:induction false} EscapedHasNoSlash(key: string)
    ensures '/' !in EscapeToken(key)
    decreases |key|
  {
    if key != [] {
      EscapedHasNoSlash(key[1..]);
      EscapeOne(key[0], key[1..]);
      assert [key[0]] + key[1..] == key;
    }
  }

  function Escaped(tokens: seq<string>): (r: seq<string>)
    ensures |r| == |tokens| && forall i :: 0 <= i < |tokens| ==> r[i] == EscapeToken(tokens[i])
  {
    seq(|tokens|, i requires 0 <= i < |tokens| => EscapeToken(tokens[i]))
  }

  ghost predicate SplitsInto(pointer: string, tokens: seq<string>) {
    pointer != [] && pointer[0] == '/' && Split(pointer[1..], '/') == Escaped(tokens)
  }

  lemma {:induction false} PointerSplits(tokens: seq<string>)
    requires tokens != []
    ensures SplitsInto(Pointer(tokens), tokens)
    decreases |tokens|
  {
    EscapedHasNoSlash(tokens[0]);
    if |tokens| == 1 {
      assert Pointer(tokens)[1..] == EscapeToken(tokens[0]);
      SplitFirst(EscapeToken(tokens[0]), [], '/');
    } else {
      PointerSplits(tokens[1..]);
      PointerExtends(tokens, Pointer(tokens[1..]));
    }
  }

  lemma PointerExtends(tokens: seq<string>, rest: string)
    requires |tokens| > 1 && SplitsInto(rest, tokens[1..]) && '/' !in EscapeToken(tokens[0])
    ensures SplitsInto("/" + EscapeToken(tokens[0]) + rest, tokens)
  {
    var first := EscapeToken(tokens[0]);
    SlashFirst(first, rest);
    SplitFirst(first, rest[1..], '/');
    assert Escaped(tokens) == [first] + Escaped(tokens[1..]);
  }

  lemma SlashFirst(first: string, rest: string)
    requires rest != [] && rest[0] == '/'
    ensures ("/" + first + rest)[0] == '/' && ("/" + first + rest)[1..] == first + ['/'] + rest[1..]
  {
    assert rest == ['/'] + rest[1..];
  }

  lemma {:induction false} LookupFinds(ms: seq<Member>, i: nat)
    requires DistinctKeys(ms, KeyOf) && i < |ms|
    ensures Lookup(ms, ms[i].key) == Some(ms[i].value)
  {
    if i > 0 {
      LookupFinds(ms[1..], i - 1);
    }
  }

  ghost predicate LeadsToUnsafe(v: Json, tokens: seq<string>) {
    var found := Walk(v, Escaped(tokens));
    found.Some? && found.value.Number? && Unsafe(found.value.num)
  }

  lemma LeadsThrough(v: Json, token: string, child: Json, tokens: seq<string>)
    requires Child(v, token) == Some(child) && LeadsToUnsafe(child, tokens)
    ensures LeadsToUnsafe(v, [token] + tokens)
  {
    EscapeReadsBack(token);
    assert Escaped([token] + tokens)[1..] == Escaped(tokens);
  }

  lemma {:induction false} FoundLeadsToUnsafe(v: Json)
    requires WellFormed(v) && FirstUnsafe(v).Some?
    ensures LeadsToUnsafe(v, FirstUnsafe(v).value)
    ensures !v.Number? ==> FirstUnsafe(v).value != []
    decreases v, Width(v) + 1
  {
    match v
    case Array(items) => ItemLeads(v, 0);
    case Object(ms) => MemberLeads(v, 0);
    case _ =>
  }

  lemma {:induction false} ItemLeads(v: Json, i: nat)
    requires WellFormed(v) && v.Array? && i <= |v.items| && FirstInItems(v, i).Some?
    ensures LeadsToUnsafe(v, FirstInItems(v, i).value) && FirstInItems(v, i).value != []
    decreases v, Width(v) - i
  {
    if FirstUnsafe(v.items[i]).Some? {
      FoundLeadsToUnsafe(v.items[i]);
      NatReadsBack(i);
      LeadsThrough(v, NatText(i), v.items[i], FirstUnsafe(v.items[i]).value);
    } else {
      ItemLeads(v, i + 1);
    }
  }

  lemma {:induction false} MemberLeads(v: Json, i: nat)
    requires WellFormed(v) && v.Object? && i <= |v.members| && FirstInMembers(v, i).Some?
    ensures LeadsToUnsafe(v, FirstInMembers(v, i).value) && FirstInMembers(v, i).value != []
    decreases v, Width(v) - i
  {
    if FirstUnsafe(v.members[i].value).Some? {
      FoundLeadsToUnsafe(v.members[i].value);
      LookupFinds(v.members, i);
      LeadsThrough(v, v.members[i].key, v.members[i].value, FirstUnsafe(v.members[i].value).value);
    } else {
      MemberLeads(v, i + 1);
    }
  }

  ghost predicate PointsToUnsafe(v: Json, pointer: string) {
    var found := Resolve(v, pointer);
    found.Some? && found.value.Number? && Unsafe(found.value.num)
  }

  /** A path is reported exactly when the value holds an unsafe number, and it is a JSON Pointer to an unsafe
      number exactly when the value is not itself that number: the whole value has the empty pointer, but the
      walk reports it as `/`. */
  lemma ReportedPathIsExact(v: Json)
    requires WellFormed(v)
    ensures var r := Reported("", FirstUnsafe(v));
            && (r.Some? <==> HasUnsafe(v))
            && (r.Some? ==> (PointsToUnsafe(v, r.value) <==> !v.Number?))
  {
    FoundIffUnsafe(v);
    var found := FirstUnsafe(v);
    if found.Some? {
      FoundLeadsToUnsafe(v);
      assert [] + Pointer(found.value) == Pointer(found.value);
      if found.value != [] {
        PointerSplits(found.value);
      }
    }
  }

  // ----- the generator's own test

  const U64_END := 0x1_0000_0000_0000_0000
  const I64_END := 0x8000_0000_0000_0000

  /** `as_u64` and `as_i64` of an integer number. */
  function AsU64(num: Num): Option<int> {
    if num.Finite? && 0 <= num.value.Floor < U64_END then Some(num.value.Floor) else None
  }

  function AsI64(num: Num): Option<int> {
    if num.Finite? && -I64_END <= num.value.Floor < I64_END then Some(num.value.Floor) else None
  }

  /** `contains_unsafe_json_number`, on numbers that are 64-bit integers. */
  predicate ContainsUnsafeJsonNumber(v: Json)
    requires Integers(v)
  {
    match v
    case Number(num) =>
      || (AsU64(num).Some? && AsU64(num).value > MAX_SAFE)
      || (AsI64(num).Some? && (if AsI64(num).value < 0 then -AsI64(num).value else AsI64(num).value) > MAX_SAFE)
    case Array(items) => exists i :: 0 <= i < |items| && ContainsUnsafeJsonNumber(items[i])
    case Object(ms) => exists i :: 0 <= i < |ms| && ContainsUnsafeJsonNumber(ms[i].value)
    case _ => false
  }

  /** Every number is an integer of 64 bits, signed or unsigned. */
  predicate Integers(v: Json) {
    match v
    case Number(num) => num.Finite? && IsInteger(num.value) && -I64_END <= num.value.Floor < U64_END
    case Array(items) => forall i :: 0 <= i < |items| ==> Integers(items[i])
    case Object(ms) => forall i :: 0 <= i < |ms| ==> Integers(ms[i].value)
    case _ => true
  }

  /** On 64-bit integers the generator and the runtime agree about what is unsafe. */
  lemma {:induction false} GeneratorAgreesWithRuntime(v: Json)
    requires Integers(v)
    ensures ContainsUnsafeJsonNumber(v) <==> FirstUnsafe(v).Some?
  {
    FoundIffUnsafe(v);
    match v
    case Array(items) =>
      forall i | 0 <= i < |items| ensures ContainsUnsafeJsonNumber(items[i]) <==> HasUnsafe(items[i]) {
        GeneratorAgreesWithRuntime(items[i]);
        FoundIffUnsafe(items[i]);
      }
    case Object(ms) =>
      forall i | 0 <= i < |ms| ensures ContainsUnsafeJsonNumber(ms[i].value) <==> HasUnsafe(ms[i].value) {
        GeneratorAgreesWithRuntime(ms[i].value);
        FoundIffUnsafe(ms[i].value);
      }
    case _ =>
  }
}
