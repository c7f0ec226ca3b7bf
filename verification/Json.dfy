/** JSON values as the Web runtime sees them, and the key-sorted form that `stableEventValue` builds. */
module Json {
  import opened StringOrder

  /** A JavaScript number: a finite value, or an infinity or NaN. */
  datatype Num = Finite(value: real) | NonFinite

  /** An object lists its members in property order. */
  datatype Json =
    | Null
    | Bool(truth: bool)
    | Number(num: Num)
    | String(text: string)
    | Array(items: seq<Json>)
    | Object(members: seq<Member>)

  datatype Member = Member(key: string, value: Json)

  function KeyOf(m: Member): string {
    m.key
  }

  /** The keys of every object are distinct, as they are in every parsed or built object. */
  ghost predicate WellFormed(v: Json) {
    match v
    case Array(items) => forall i :: 0 <= i < |items| ==> WellFormed(items[i])
    case Object(ms) => DistinctKeys(ms, KeyOf) && forall i :: 0 <= i < |ms| ==> WellFormed(ms[i].value)
    case _ => true
  }

  // ----- stableEventValue

  function Stable(v: Json): Json {
    match v
    case Array(items) => Array(seq(|items|, i requires 0 <= i < |items| => Stable(items[i])))
    case Object(ms) => Object(Sort(seq(|ms|, i requires 0 <= i < |ms| => Member(ms[i].key, Stable(ms[i].value))),
                                   KeyOf))
    case _ => v
  }

  /** Equal but for the order of object members, at every depth. */
  ghost predicate SameButOrder(v: Json, w: Json) {
    match (v, w)
    case (Array(a), Array(b)) => |a| == |b| && forall i :: 0 <= i < |a| ==> SameButOrder(a[i], b[i])
    case (Object(a), Object(b)) =>
      && |a| == |b|
      && (forall i :: 0 <= i < |a| ==>
        exists j :: 0 <= j < |b| && a[i].key == b[j].key && SameButOrder(a[i].value, b[j].value))
    case _ => v == w
  }

  lemma {:induction false} DistinctSize(ms: seq<Member>)
    requires DistinctKeys(ms, KeyOf)
    ensures |set m | m in ms| == |ms|
  {
    if ms != [] {
      DistinctSize(ms[1..]);
      assert (set m | m in ms) == {ms[0]} + (set m | m in ms[1..]);
    }
  }

  lemma SubsetOfSameSize(a: seq<Member>, b: seq<Member>)
    requires DistinctKeys(a, KeyOf) && DistinctKeys(b, KeyOf) && |a| == |b| && forall m :: m in a ==> m in b
    ensures forall m :: m in b ==> m in a
  {
    DistinctSize(a);
    DistinctSize(b);
    var sa, sb := set m | m in a, set m | m in b;
    assert |sb - sa| == |sb| - |sa|;
    assert forall m :: m in b ==> m in sb && m !in sb - sa;
  }

  function Stabled(ms: seq<Member>): (r: seq<Member>)
    ensures |r| == |ms| && forall i :: 0 <= i < |ms| ==> r[i] == Member(ms[i].key, Stable(ms[i].value))
  {
    seq(|ms|, i requires 0 <= i < |ms| => Member(ms[i].key, Stable(ms[i].value)))
  }

  /** Two values have the same key-sorted value exactly when they differ at most in the order of object members. */
  lemma {:induction false} StableCharacterizesContent(v: Json, w: Json)
    requires WellFormed(v) && WellFormed(w)
    ensures Stable(v) == Stable(w) <==> SameButOrder(v, w)
  {
    match (v, w)
    case (Array(a), Array(b)) =>
      if |a| == |b| {
        forall i | 0 <= i < |a| ensures Stable(a[i]) == Stable(b[i]) <==> SameButOrder(a[i], b[i]) {
          StableCharacterizesContent(a[i], b[i]);
        }
        var sa, sb := Stable(v).items, Stable(w).items;
        assert forall i :: 0 <= i < |a| ==> sa[i] == Stable(a[i]) && sb[i] == Stable(b[i]);
        if forall i :: 0 <= i < |a| ==> sa[i] == sb[i] {
          assert sa == sb;
        } else {
          assert sa != sb;
        }
      } else {
        assert |Stable(v).items| == |a| && |Stable(w).items| == |b|;
      }
    case (Object(a), Object(b)) =>
      forall i, j | 0 <= i < |a| && 0 <= j < |b|
        ensures Stable(a[i].value) == Stable(b[j].value) <==> SameButOrder(a[i].value, b[j].value)
      {
        StableCharacterizesContent(a[i].value, b[j].value);
      }
      StableMembers(a, b);
    case _ =>
  }

  lemma SameOrderedMembers(a: seq<Member>, b: seq<Member>)
    requires forall i, j :: 0 <= i < |a| && 0 <= j < |b| ==>
               (Stable(a[i].value) == Stable(b[j].value) <==> SameButOrder(a[i].value, b[j].value))
    ensures SameButOrder(Object(a), Object(b)) <==> |a| == |b| && forall m :: m in Stabled(a) ==> m in Stabled(b)
  {
    var sa, sb := Stabled(a), Stabled(b);
    if SameButOrder(Object(a), Object(b)) {
      forall m | m in sa ensures m in sb {
        var i :| 0 <= i < |a| && sa[i] == m;
        var j :| 0 <= j < |b| && a[i].key == b[j].key && SameButOrder(a[i].value, b[j].value);
        assert sb[j] == m;
      }
    }
    if |a| == |b| && forall m :: m in sa ==> m in sb {
      forall i | 0 <= i < |a|
        ensures exists j :: 0 <= j < |b| && a[i].key == b[j].key && SameButOrder(a[i].value, b[j].value)
      {
        assert sa[i] in sb;
        var j :| 0 <= j < |b| && sb[j] == sa[i];
      }
    }
  }

  lemma StableMembers(a: seq<Member>, b: seq<Member>)
    requires DistinctKeys(a, KeyOf) && DistinctKeys(b, KeyOf)
    requires forall i, j :: 0 <= i < |a| && 0 <= j < |b| ==>
               (Stable(a[i].value) == Stable(b[j].value) <==> SameButOrder(a[i].value, b[j].value))
    ensures Stable(Object(a)) == Stable(Object(b)) <==> SameButOrder(Object(a), Object(b))
  {
    var sa, sb := Stabled(a), Stabled(b);
    SameOrderedMembers(a, b);
    assert Stable(Object(a)).members == Sort(sa, KeyOf) && Stable(Object(b)).members == Sort(sb, KeyOf);
    if |a| == |b| && forall m :: m in sa ==> m in sb {
      SubsetOfSameSize(sa, sb);
      SortAscends(sa, KeyOf);
      SortAscends(sb, KeyOf);
      AscendingIsUnique(Sort(sa, KeyOf), Sort(sb, KeyOf), KeyOf);
    }
  }
}
