// What Python's == says of JSON values, without the recursion that computes it.
module Equality {
  import opened Options
  import opened Json
  import opened RuleEngine

  // What Python keeps of a value when it compares it: a bool, an int and a float are one
  // number, and the order of keys is forgotten.
  datatype Normal =
    | NNull
    | NNumber(x: real)
    | NStr(s: string)
    | NArr(items: seq<Normal>)
    | NObj(m: map<string, Normal>)

  function NormalOf(j: Json): Normal {
    match j
    case JNull => NNull
    case JBool(b) => NNumber(if b then 1.0 else 0.0)
    case JInt(n) => NNumber(n as real)
    case JFloat(x) => NNumber(x)
    case JStr(s) => NStr(s)
    case JArr(items) => NArr(seq(|items|, i requires 0 <= i < |items| => NormalOf(items[i])))
    case JObj(_, m) => NObj(map k | k in m :: NormalOf(m[k]))
  }

  // The number a value is, for the rules that compare numbers; a bool is none.
  function Magnitude(j: Json): Option<real> {
    match j
    case JInt(n) => Some(n as real)
    case JFloat(x) => Some(x)
    case _ => None
  }

  // Two values are equal exactly when nothing Python keeps tells them apart.
  lemma {:induction false} EqualExactlyWhenSameNormal(a: Json, b: Json)
    ensures PyEqual(a, b) <==> NormalOf(a) == NormalOf(b)
    decreases a
  {
    if a.JArr? && b.JArr? && |a.items| == |b.items| {
      forall i | 0 <= i < |a.items| ensures PyEqual(a.items[i], b.items[i]) <==> NormalOf(a.items[i]) == NormalOf(b.items[i]) {
        EqualExactlyWhenSameNormal(a.items[i], b.items[i]);
      }
      SameItems(a.items, b.items);
    } else if a.JArr? && b.JArr? {
      assert |NormalOf(a).items| != |NormalOf(b).items|;
    } else if a.JObj? && b.JObj? {
      forall k | k in a.m && k in b.m ensures PyEqual(a.m[k], b.m[k]) <==> NormalOf(a.m[k]) == NormalOf(b.m[k]) {
        EqualExactlyWhenSameNormal(a.m[k], b.m[k]);
      }
      SameMembers(a, b);
    }
  }

  lemma SameItems(a: seq<Json>, b: seq<Json>)
    requires |a| == |b|
    ensures NormalOf(JArr(a)) == NormalOf(JArr(b)) <==> forall i :: 0 <= i < |a| ==> NormalOf(a[i]) == NormalOf(b[i])
  {
    var n, m := NormalOf(JArr(a)).items, NormalOf(JArr(b)).items;
    assert forall i :: 0 <= i < |a| ==> n[i] == NormalOf(a[i]) && m[i] == NormalOf(b[i]);
  }

  lemma SameMembers(a: Json, b: Json)
    requires a.JObj? && b.JObj?
    ensures NormalOf(a) == NormalOf(b)
       <==> a.m.Keys == b.m.Keys && forall k :: k in a.m ==> NormalOf(a.m[k]) == NormalOf(b.m[k])
  {
    var n, m := NormalOf(a).m, NormalOf(b).m;
    assert n.Keys == a.m.Keys && m.Keys == b.m.Keys;
    assert forall k :: k in a.m ==> n[k] == NormalOf(a.m[k]);
    assert forall k :: k in b.m ==> m[k] == NormalOf(b.m[k]);
  }

  lemma MagnitudeIsTheNumber(j: Json)
    ensures IsNumber(j) <==> Magnitude(j).Some?
    ensures IsNumber(j) ==> Comparable(j) && Magnitude(j) == Some(NumberOf(j))
    ensures Comparable(j) ==> NormalOf(j) == NNumber(NumberOf(j))
  {
  }
}
