// JSON values as Python's json module builds them: an object is an insertion-ordered
// dict, kept here as its keys in order and the map they index.
module Json {

  datatype Json =
    | JNull
    | JBool(b: bool)
    | JInt(n: int)
    | JFloat(x: real)
    | JStr(s: string)
    | JArr(items: seq<Json>)
    | JObj(keys: seq<string>, m: map<string, Json>)

  // The keys of every dict are listed once each.
  ghost predicate WellFormed(j: Json) {
    match j
    case JArr(items) => forall x :: x in items ==> WellFormed(x)
    case JObj(keys, m) =>
      && (forall k :: k in keys <==> k in m)
      && (forall i, j :: 0 <= i < j < |keys| ==> keys[i] != keys[j])
      && (forall k :: k in m ==> WellFormed(m[k]))
    case _ => true
  }

  // The same value with the order of object keys forgotten.
  datatype Value =
    | VNull
    | VBool(b: bool)
    | VInt(n: int)
    | VFloat(x: real)
    | VStr(s: string)
    | VArr(items: seq<Value>)
    | VObj(m: map<string, Value>)

  function Unordered(j: Json): Value {
    match j
    case JNull => VNull
    case JBool(b) => VBool(b)
    case JInt(n) => VInt(n)
    case JFloat(x) => VFloat(x)
    case JStr(s) => VStr(s)
    case JArr(items) => VArr(UnorderedItems(items))
    case JObj(keys, m) => VObj(map k | k in m :: Unordered(m[k]))
  }

  function UnorderedItems(items: seq<Json>): seq<Value> {
    if items == [] then [] else [Unordered(items[0])] + UnorderedItems(items[1..])
  }
}
