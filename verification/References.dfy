// Reference checks of contract_admission.py: _walk_subschemas and _reference_cycle.
module References {
  import opened Options
  import opened Json
  import opened Decimal
  import opened JsonPointer

  // ------------------------------------------------------------------------------
  // Following direct $ref hops
  // ------------------------------------------------------------------------------

  predicate IsLocal(ref: string) {
    ref != [] && ref[0] == '#'
  }

  // The pointer a node hops to: a string $ref that starts with '#'.
  function HopOf(target: Option<Json>): Option<string> {
    if target.Some? && target.value.JObj? && "$ref" in target.value.m
       && target.value.m["$ref"].JStr? && IsLocal(target.value.m["$ref"].s)
    then Some(target.value.m["$ref"].s)
    else None
  }

  // The pointer reached after n hops from start, if the chain is that long.
  function Hops(root: Json, start: string, n: nat): Option<string> {
    if n == 0 then Some(start)
    else
      match Hops(root, start, n - 1)
      case None => None
      case Some(pointer) => HopOf(Resolve(root, pointer))
  }

  ghost predicate NeverEnds(root: Json, start: string) {
    forall n: nat :: Hops(root, start, n).Some?
  }

  // Every string a $ref of the document holds.
  ghost function RefStrings(j: Json): set<string> {
    match j
    case JArr(items) => set i, s | 0 <= i < |items| && s in RefStrings(items[i]) :: s
    case JObj(_, m) =>
      (set k, s | k in m && s in RefStrings(m[k]) :: s)
      + (if "$ref" in m && m["$ref"].JStr? then {m["$ref"].s} else {})
    case _ => {}
  }

  lemma {:induction false} NodeRefs(doc: Json, path: seq<PathStep>)
    requires NodeAt(doc, path).Some?
    ensures RefStrings(NodeAt(doc, path).value) <= RefStrings(doc)
  {
    if path != [] {
      match path[0]
      case Key(k) => NodeRefs(doc.m[k], path[1..]);
      case Index(i) => NodeRefs(doc.items[i], path[1..]);
    }
  }

  lemma HopIsARefString(root: Json, pointer: string)
    requires HopOf(Resolve(root, pointer)).Some?
    ensures HopOf(Resolve(root, pointer)).value in RefStrings(root)
  {
    var path := ResolvedIsANode(root, pointer);
    NodeRefs(root, path);
  }

  lemma {:induction false} HopsCompose(root: Json, start: string, m: nat, n: nat)
    requires Hops(root, start, m).Some?
    ensures Hops(root, start, m + n) == Hops(root, Hops(root, start, m).value, n)
  {
    hide HopOf, Resolve;
    if n > 0 {
      HopsCompose(root, start, m, n - 1);
    }
  }

  lemma {:induction false} HopsShorter(root: Json, start: string, m: nat, n: nat)
    requires m <= n && Hops(root, start, n).Some?
    ensures Hops(root, start, m).Some?
  {
    hide HopOf, Resolve;
    if m < n {
      HopsShorter(root, start, m, n - 1);
    }
  }

  // A pointer met twice is met for ever.
  lemma {:induction false} RevisitNeverEnds(root: Json, start: string, i: nat, j: nat, n: nat)
    requires i < j && Hops(root, start, i).Some? && Hops(root, start, i) == Hops(root, start, j)
    ensures Hops(root, start, n).Some?
    decreases n
  {
    hide HopOf, Resolve;
    if n <= j {
      HopsShorter(root, start, n, j);
    } else {
      RevisitNeverEnds(root, start, i, j, n - (j - i));
      HopsCompose(root, start, i, n - j);
      HopsCompose(root, start, j, n - j);
    }
  }

  // _reference_cycle: terminates on every document, because each pointer after the first
  // is one of the document's finitely many $ref strings, and answers true exactly when
  // following direct hops from start never ends.
  method ReferenceCycle(root: Json, start: string) returns (cyclic: bool)
    ensures cyclic <==> NeverEnds(root, start)
  {
    hide Resolve, HopOf, RefStrings;
    var seen: set<string> := {};
    var pointer := start;
    ghost var n: nat := 0;
    ghost var all := RefStrings(root) + {start};
    while true
      invariant Hops(root, start, n) == Some(pointer) && pointer in all
      invariant seen <= all
      invariant forall s :: s in seen ==> exists i :: 0 <= i < n && Hops(root, start, i) == Some(s)
      decreases all - seen
    {
      if pointer in seen {
        ghost var i :| 0 <= i < n && Hops(root, start, i) == Some(pointer);
        forall k: nat ensures Hops(root, start, k).Some? {
          RevisitNeverEnds(root, start, i, n, k);
        }
        return true;
      }
      seen := seen + {pointer};
      var target := ResolvePointer(root, pointer);
      var next := HopOf(target);
      if next.None? {
        assert Hops(root, start, n + 1).None?;
        return false;
      }
      HopIsARefString(root, pointer);
      pointer := next.value;
      n := n + 1;
    }
  }

  // ------------------------------------------------------------------------------
  // Every schema-bearing node
  // ------------------------------------------------------------------------------

  datatype Keyword =
    | Items | Contains | Not | If | Then | Else | PropertyNames
    | AdditionalProperties | UnevaluatedItems | UnevaluatedProperties
    | AllOf | AnyOf | OneOf | PrefixItems
    | Properties | PatternProperties | Defs | Definitions | DependentSchemas

  function Word(k: Keyword): string {
    match k
    case Items => "items"
    case Contains => "contains"
    case Not => "not"
    case If => "if"
    case Then => "then"
    case Else => "else"
    case PropertyNames => "propertyNames"
    case AdditionalProperties => "additionalProperties"
    case UnevaluatedItems => "unevaluatedItems"
    case UnevaluatedProperties => "unevaluatedProperties"
    case AllOf => "allOf"
    case AnyOf => "anyOf"
    case OneOf => "oneOf"
    case PrefixItems => "prefixItems"
    case Properties => "properties"
    case PatternProperties => "patternProperties"
    case Defs => "$defs"
    case Definitions => "definitions"
    case DependentSchemas => "dependentSchemas"
  }

  const SCHEMA_VALUED := [Items, Contains, Not, If, Then, Else, PropertyNames,
                          AdditionalProperties, UnevaluatedItems, UnevaluatedProperties]
  const SCHEMA_LIST_VALUED := [AllOf, AnyOf, OneOf, PrefixItems]
  const SCHEMA_MAP_VALUED := [Properties, PatternProperties, Defs, Definitions, DependentSchemas]

  // Every schema-bearing keyword is walked in one of the three ways, or, for "items", in two.
  lemma EveryKeywordIsWalked(k: Keyword)
    ensures k in SCHEMA_VALUED || k in SCHEMA_LIST_VALUED || k in SCHEMA_MAP_VALUED
    ensures !(k in SCHEMA_VALUED && k in SCHEMA_LIST_VALUED) && !(k in SCHEMA_VALUED && k in SCHEMA_MAP_VALUED)
    ensures !(k in SCHEMA_LIST_VALUED && k in SCHEMA_MAP_VALUED)
  {
  }

  datatype Visit = Visit(path: string, node: Json)

  // _walk_subschemas.
  function WalkSubschemas(node: Json, path: string): seq<Visit>
    decreases node, 4
  {
    if !node.JObj? then []
    else
      [Visit(path, node)]
      + WalkSingle(node, path, SCHEMA_VALUED)
      + WalkLists(node, path, SCHEMA_LIST_VALUED)
      + WalkMaps(node, path, SCHEMA_MAP_VALUED)
      + (if "items" in node.m && node.m["items"].JArr? then WalkItems(node.m["items"].items, path + ".items", 0) else [])
  }

  function WalkSingle(node: Json, path: string, keywords: seq<Keyword>): seq<Visit>
    requires node.JObj?
    decreases node, 3, |keywords|
  {
    if keywords == [] then []
    else
      (if Word(keywords[0]) in node.m && node.m[Word(keywords[0])].JObj?
       then WalkSubschemas(node.m[Word(keywords[0])], path + "." + Word(keywords[0])) else [])
      + WalkSingle(node, path, keywords[1..])
  }

  function WalkLists(node: Json, path: string, keywords: seq<Keyword>): seq<Visit>
    requires node.JObj?
    decreases node, 3, |keywords|
  {
    if keywords == [] then []
    else
      (if Word(keywords[0]) in node.m && node.m[Word(keywords[0])].JArr?
       then WalkItems(node.m[Word(keywords[0])].items, path + "." + Word(keywords[0]), 0) else [])
      + WalkLists(node, path, keywords[1..])
  }

  function WalkItems(items: seq<Json>, path: string, index: nat): seq<Visit>
    decreases items, 0
  {
    if items == [] then []
    else WalkSubschemas(items[0], path + "[" + NatText(index) + "]") + WalkItems(items[1..], path, index + 1)
  }

  function WalkMaps(node: Json, path: string, keywords: seq<Keyword>): seq<Visit>
    requires node.JObj?
    decreases node, 3, |keywords|
  {
    if keywords == [] then []
    else
      (if Word(keywords[0]) in node.m && node.m[Word(keywords[0])].JObj?
       then WalkFields(node.m[Word(keywords[0])], node.m[Word(keywords[0])].keys, path + "." + Word(keywords[0])) else [])
      + WalkMaps(node, path, keywords[1..])
  }

  function WalkFields(children: Json, names: seq<string>, path: string): seq<Visit>
    requires children.JObj?
    decreases children, 3, |names|
  {
    if names == [] then []
    else
      (if names[0] in children.m then WalkSubschemas(children.m[names[0]], path + "." + names[0]) else [])
      + WalkFields(children, names[1..], path)
  }

  // A keyword of the node maps this name to something.
  predicate Names(node: Json, k: Keyword, name: string) {
    node.JObj? && Word(k) in node.m && node.m[Word(k)].JObj? && name in node.m[Word(k)].m
  }

  // What "beneath" means, without the traversal: the schema itself, and whatever is
  // beneath a schema its keywords hold.
  ghost predicate HoldsSchema(node: Json, child: Json) {
    node.JObj? && child.JObj? &&
    ( (exists k :: k in SCHEMA_VALUED && Word(k) in node.m && node.m[Word(k)] == child)
      || (exists k :: (k in SCHEMA_LIST_VALUED || k == Items) && Word(k) in node.m
                      && node.m[Word(k)].JArr? && child in node.m[Word(k)].items)
      || (exists k, name :: k in SCHEMA_MAP_VALUED && Names(node, k, name) && node.m[Word(k)].m[name] == child))
  }

  // A way down from the root, schema by schema.
  ghost predicate Beneath(root: Json, chain: seq<Json>) {
    && chain != [] && chain[0] == root && root.JObj?
    && (|chain| == 1 || (HoldsSchema(root, chain[1]) && Beneath(chain[1], chain[1..])))
  }

  ghost predicate Visits(visits: seq<Visit>, node: Json) {
    exists i :: 0 <= i < |visits| && visits[i].node == node
  }

  lemma PartsOfTheWalk(node: Json, path: string)
    requires node.JObj?
    ensures forall v :: v in WalkSingle(node, path, SCHEMA_VALUED) ==> v in WalkSubschemas(node, path)
    ensures forall v :: v in WalkLists(node, path, SCHEMA_LIST_VALUED) ==> v in WalkSubschemas(node, path)
    ensures forall v :: v in WalkMaps(node, path, SCHEMA_MAP_VALUED) ==> v in WalkSubschemas(node, path)
    ensures "items" in node.m && node.m["items"].JArr? ==>
              forall v :: v in WalkItems(node.m["items"].items, path + ".items", 0) ==> v in WalkSubschemas(node, path)
  {
    hide WalkSingle, WalkLists, WalkMaps, WalkItems;
  }

  // The walk misses nothing: every node held directly by a visited schema is visited.
  lemma WalkVisitsHeld(node: Json, path: string, child: Json) returns (p: string)
    requires WellFormed(node) && HoldsSchema(node, child)
    ensures child < node && child.JObj? && WellFormed(child)
    ensures forall v :: v in WalkSubschemas(child, p) ==> v in WalkSubschemas(node, path)
  {
    hide WalkSubschemas, WalkSingle, WalkLists, WalkMaps, WalkItems, WellFormed;
    PartsOfTheWalk(node, path);
    if k :| k in SCHEMA_VALUED && Word(k) in node.m && node.m[Word(k)] == child {
      WellFormedValue(node, Word(k));
      p := SingleVisits(node, path, SCHEMA_VALUED, k);
    } else if k :| k in SCHEMA_LIST_VALUED && Word(k) in node.m && node.m[Word(k)].JArr? && child in node.m[Word(k)].items {
      WellFormedValue(node, Word(k));
      WellFormedItem(node.m[Word(k)], child);
      p := ListVisits(node, path, SCHEMA_LIST_VALUED, k, child);
    } else if "items" in node.m && node.m["items"].JArr? && child in node.m["items"].items {
      WellFormedValue(node, "items");
      WellFormedItem(node.m["items"], child);
      p := ItemVisits(node.m["items"].items, path + ".items", 0, child);
    } else {
      var k, name :| k in SCHEMA_MAP_VALUED && Names(node, k, name) && node.m[Word(k)].m[name] == child;
      WellFormedValue(node, Word(k));
      WellFormedValue(node.m[Word(k)], name);
      p := MapVisits(node, path, SCHEMA_MAP_VALUED, k, name);
    }
  }

  lemma WellFormedValue(node: Json, key: string)
    requires WellFormed(node) && node.JObj? && key in node.m
    ensures WellFormed(node.m[key]) && node.m[key] < node
  {
  }

  lemma WellFormedItem(node: Json, item: Json)
    requires WellFormed(node) && node.JArr? && item in node.items
    ensures WellFormed(item) && item < node
  {
  }

  lemma {:induction false} SingleVisits(node: Json, path: string, keywords: seq<Keyword>, k: Keyword) returns (p: string)
    requires node.JObj? && k in keywords && Word(k) in node.m && node.m[Word(k)].JObj?
    ensures forall v :: v in WalkSubschemas(node.m[Word(k)], p) ==> v in WalkSingle(node, path, keywords)
  {
    if keywords[0] == k {
      p := path + "." + Word(k);
    } else {
      p := SingleVisits(node, path, keywords[1..], k);
    }
  }

  lemma {:induction false} ListVisits(node: Json, path: string, keywords: seq<Keyword>, k: Keyword, child: Json)
    returns (p: string)
    requires node.JObj? && k in keywords && Word(k) in node.m && node.m[Word(k)].JArr? && child in node.m[Word(k)].items
    ensures forall v :: v in WalkSubschemas(child, p) ==> v in WalkLists(node, path, keywords)
  {
    if keywords[0] == k {
      p := ItemVisits(node.m[Word(k)].items, path + "." + Word(k), 0, child);
    } else {
      p := ListVisits(node, path, keywords[1..], k, child);
    }
  }

  lemma {:induction false} ItemVisits(items: seq<Json>, path: string, index: nat, child: Json) returns (p: string)
    requires child in items
    ensures forall v :: v in WalkSubschemas(child, p) ==> v in WalkItems(items, path, index)
    decreases |items|
  {
    if items[0] == child {
      p := path + "[" + NatText(index) + "]";
    } else {
      p := ItemVisits(items[1..], path, index + 1, child);
    }
  }

  lemma {:induction false} MapVisits(node: Json, path: string, keywords: seq<Keyword>, k: Keyword, name: string)
    returns (p: string)
    requires WellFormed(node) && k in keywords && Names(node, k, name)
    ensures forall v :: v in WalkSubschemas(node.m[Word(k)].m[name], p) ==> v in WalkMaps(node, path, keywords)
  {
    if keywords[0] == k {
      p := FieldVisits(node.m[Word(k)], node.m[Word(k)].keys, path + "." + Word(k), name);
    } else {
      p := MapVisits(node, path, keywords[1..], k, name);
    }
  }

  lemma {:induction false} FieldVisits(children: Json, names: seq<string>, path: string, name: string) returns (p: string)
    requires children.JObj? && name in names && name in children.m
    ensures forall v :: v in WalkSubschemas(children.m[name], p) ==> v in WalkFields(children, names, path)
    decreases |names|
  {
    if names[0] == name {
      p := path + "." + name;
    } else {
      p := FieldVisits(children, names[1..], path, name);
    }
  }

  // Every schema reachable through schema-bearing keywords, at any depth, is visited.
  lemma {:induction false} WalkIsComplete(root: Json, path: string, chain: seq<Json>)
    requires WellFormed(root) && Beneath(root, chain)
    ensures Visits(WalkSubschemas(root, path), chain[|chain| - 1])
    decreases |chain|
  {
    hide WalkSubschemas, HoldsSchema;
    if |chain| == 1 {
      PathsLengthen(root, path);
    } else {
      var p := WalkVisitsHeld(root, path, chain[1]);
      var visits := WalkSubschemas(chain[1], p);
      WalkIsComplete(chain[1], p, chain[1..]);
      var i :| 0 <= i < |visits| && visits[i].node == chain[|chain| - 1];
      assert visits[i] in visits;
      assert visits[i] in WalkSubschemas(root, path);
    }
  }

  // ------------------------------------------------------------------------------
  // The walk visits nothing else
  // ------------------------------------------------------------------------------

  ghost predicate ClosedDown(good: Json -> bool) {
    forall a, b :: good(a) && HoldsSchema(a, b) ==> good(b)
  }

  ghost predicate AllGood(visits: seq<Visit>, good: Json -> bool) {
    forall i :: 0 <= i < |visits| ==> good(visits[i].node) && visits[i].node.JObj?
  }

  // Whatever holds of the root and of every schema held by one it holds of, holds of every
  // visited schema.
  lemma {:induction false} WalkStaysWithin(node: Json, path: string, good: Json -> bool)
    requires ClosedDown(good) && good(node)
    ensures AllGood(WalkSubschemas(node, path), good)
    decreases node, 4
  {
    hide HoldsSchema;
    if node.JObj? {
      SingleStaysWithin(node, path, SCHEMA_VALUED, good);
      ListsStayWithin(node, path, SCHEMA_LIST_VALUED, good);
      MapsStayWithin(node, path, SCHEMA_MAP_VALUED, good);
      if "items" in node.m && node.m["items"].JArr? {
        ListHolds(node, Items);
        ItemsStayWithin(node.m["items"].items, path + ".items", 0, good);
      }
    }
  }

  lemma ListHolds(node: Json, k: Keyword)
    requires node.JObj? && (k in SCHEMA_LIST_VALUED || k == Items) && Word(k) in node.m && node.m[Word(k)].JArr?
    ensures forall child :: child in node.m[Word(k)].items && child.JObj? ==> HoldsSchema(node, child)
  {
  }

  lemma {:induction false} SingleStaysWithin(node: Json, path: string, keywords: seq<Keyword>, good: Json -> bool)
    requires ClosedDown(good) && good(node) && node.JObj? && forall k :: k in keywords ==> k in SCHEMA_VALUED
    ensures AllGood(WalkSingle(node, path, keywords), good)
    decreases node, 3, |keywords|
  {
    if keywords != [] {
      if Word(keywords[0]) in node.m && node.m[Word(keywords[0])].JObj? {
        assert keywords[0] in SCHEMA_VALUED;
        assert HoldsSchema(node, node.m[Word(keywords[0])]);
        WalkStaysWithin(node.m[Word(keywords[0])], path + "." + Word(keywords[0]), good);
      }
      SingleStaysWithin(node, path, keywords[1..], good);
    }
  }

  lemma {:induction false} ListsStayWithin(node: Json, path: string, keywords: seq<Keyword>, good: Json -> bool)
    requires ClosedDown(good) && good(node) && node.JObj? && forall k :: k in keywords ==> k in SCHEMA_LIST_VALUED
    ensures AllGood(WalkLists(node, path, keywords), good)
    decreases node, 3, |keywords|
  {
    hide HoldsSchema;
    if keywords != [] {
      if Word(keywords[0]) in node.m && node.m[Word(keywords[0])].JArr? {
        assert keywords[0] in SCHEMA_LIST_VALUED;
        ListHolds(node, keywords[0]);
        ItemsStayWithin(node.m[Word(keywords[0])].items, path + "." + Word(keywords[0]), 0, good);
      }
      ListsStayWithin(node, path, keywords[1..], good);
    }
  }

  lemma {:induction false} ItemsStayWithin(items: seq<Json>, path: string, index: nat, good: Json -> bool)
    requires ClosedDown(good) && forall item :: item in items && item.JObj? ==> good(item)
    ensures AllGood(WalkItems(items, path, index), good)
    decreases items, 0
  {
    hide HoldsSchema;
    if items != [] {
      assert items[0] in items;
      if items[0].JObj? {
        WalkStaysWithin(items[0], path + "[" + NatText(index) + "]", good);
      }
      ItemsStayWithin(items[1..], path, index + 1, good);
    }
  }

  lemma {:induction false} MapsStayWithin(node: Json, path: string, keywords: seq<Keyword>, good: Json -> bool)
    requires ClosedDown(good) && good(node) && node.JObj? && forall k :: k in keywords ==> k in SCHEMA_MAP_VALUED
    ensures AllGood(WalkMaps(node, path, keywords), good)
    decreases node, 3, |keywords|
  {
    if keywords != [] {
      var k := keywords[0];
      if Word(k) in node.m && node.m[Word(k)].JObj? {
        assert k in SCHEMA_MAP_VALUED;
        forall name | name in node.m[Word(k)].m && node.m[Word(k)].m[name].JObj? ensures good(node.m[Word(k)].m[name]) {
          assert Names(node, k, name);
          assert HoldsSchema(node, node.m[Word(k)].m[name]);
        }
        FieldsStayWithin(node.m[Word(k)], node.m[Word(k)].keys, path + "." + Word(k), good);
      }
      MapsStayWithin(node, path, keywords[1..], good);
    }
  }

  lemma {:induction false} FieldsStayWithin(children: Json, names: seq<string>, path: string, good: Json -> bool)
    requires ClosedDown(good) && children.JObj?
    requires forall name :: name in children.m && children.m[name].JObj? ==> good(children.m[name])
    ensures AllGood(WalkFields(children, names, path), good)
    decreases children, 3, |names|
  {
    hide HoldsSchema;
    if names != [] {
      if names[0] in children.m && children.m[names[0]].JObj? {
        WalkStaysWithin(children.m[names[0]], path + "." + names[0], good);
      }
      FieldsStayWithin(children, names[1..], path, good);
    }
  }

  ghost predicate IsBeneath(root: Json, node: Json) {
    exists chain :: Beneath(root, chain) && chain[|chain| - 1] == node
  }

  lemma {:induction false} BeneathGoesOn(root: Json, chain: seq<Json>, child: Json)
    requires Beneath(root, chain) && HoldsSchema(chain[|chain| - 1], child)
    ensures Beneath(root, chain + [child])
    decreases |chain|
  {
    hide HoldsSchema;
    if |chain| == 1 {
      ItselfBeneath(root, child);
      assert chain + [child] == [root, child];
    } else {
      assert (chain + [child])[1..] == chain[1..] + [child];
      BeneathGoesOn(chain[1], chain[1..], child);
    }
  }

  lemma ItselfBeneath(root: Json, child: Json)
    requires root.JObj?
    ensures Beneath(root, [root])
    ensures HoldsSchema(root, child) ==> Beneath(root, [root, child])
  {
    if HoldsSchema(root, child) {
      assert [root, child][1..] == [child];
      assert Beneath(child, [child]);
    }
  }

  // Every visited schema is the root or beneath it: with WalkIsComplete, the walk visits
  // exactly the schemas reachable through schema-bearing keywords.
  lemma WalkIsSound(root: Json, path: string)
    requires root.JObj?
    ensures forall v :: v in WalkSubschemas(root, path) ==> IsBeneath(root, v.node)
  {
    hide WalkSubschemas, HoldsSchema;
    var good := node => IsBeneath(root, node);
    ItselfBeneath(root, root);
    assert IsBeneath(root, root) by {
      assert [root][|[root]| - 1] == root;
    }
    forall a, b | good(a) && HoldsSchema(a, b) ensures good(b) {
      var chain :| Beneath(root, chain) && chain[|chain| - 1] == a;
      BeneathGoesOn(root, chain, b);
      assert (chain + [b])[|chain + [b]| - 1] == b;
    }
    WalkStaysWithin(root, path, good);
  }

  // ------------------------------------------------------------------------------
  // Paths lengthen on the way down
  // ------------------------------------------------------------------------------

  ghost predicate Deeper(visits: seq<Visit>, path: string) {
    forall i :: 0 <= i < |visits| ==> |visits[i].path| > |path|
  }

  lemma {:induction false} PathsLengthen(node: Json, path: string)
    ensures node.JObj? ==> WalkSubschemas(node, path) != [] && WalkSubschemas(node, path)[0] == Visit(path, node)
    ensures node.JObj? ==> Deeper(WalkSubschemas(node, path)[1..], path)
    ensures !node.JObj? ==> WalkSubschemas(node, path) == []
    decreases node, 4
  {
    if node.JObj? {
      SingleLengthen(node, path, SCHEMA_VALUED);
      ListsLengthen(node, path, SCHEMA_LIST_VALUED);
      MapsLengthen(node, path, SCHEMA_MAP_VALUED);
      if "items" in node.m && node.m["items"].JArr? {
        ItemsLengthen(node.m["items"].items, path + ".items", 0);
      }
    }
  }

  lemma {:induction false} SingleLengthen(node: Json, path: string, keywords: seq<Keyword>)
    requires node.JObj?
    ensures Deeper(WalkSingle(node, path, keywords), path)
    decreases node, 3, |keywords|
  {
    if keywords != [] {
      if Word(keywords[0]) in node.m && node.m[Word(keywords[0])].JObj? {
        PathsLengthen(node.m[Word(keywords[0])], path + "." + Word(keywords[0]));
      }
      SingleLengthen(node, path, keywords[1..]);
    }
  }

  lemma {:induction false} ListsLengthen(node: Json, path: string, keywords: seq<Keyword>)
    requires node.JObj?
    ensures Deeper(WalkLists(node, path, keywords), path)
    decreases node, 3, |keywords|
  {
    if keywords != [] {
      if Word(keywords[0]) in node.m && node.m[Word(keywords[0])].JArr? {
        ItemsLengthen(node.m[Word(keywords[0])].items, path + "." + Word(keywords[0]), 0);
      }
      ListsLengthen(node, path, keywords[1..]);
    }
  }

  lemma {:induction false} ItemsLengthen(items: seq<Json>, path: string, index: nat)
    ensures Deeper(WalkItems(items, path, index), path)
    decreases items, 0
  {
    if items != [] {
      PathsLengthen(items[0], path + "[" + NatText(index) + "]");
      ItemsLengthen(items[1..], path, index + 1);
    }
  }

  lemma {:induction false} MapsLengthen(node: Json, path: string, keywords: seq<Keyword>)
    requires node.JObj?
    ensures Deeper(WalkMaps(node, path, keywords), path)
    decreases node, 3, |keywords|
  {
    if keywords != [] {
      if Word(keywords[0]) in node.m && node.m[Word(keywords[0])].JObj? {
        FieldsLengthen(node.m[Word(keywords[0])], node.m[Word(keywords[0])].keys, path + "." + Word(keywords[0]));
      }
      MapsLengthen(node, path, keywords[1..]);
    }
  }

  lemma {:induction false} FieldsLengthen(children: Json, names: seq<string>, path: string)
    requires children.JObj?
    ensures Deeper(WalkFields(children, names, path), path)
    decreases children, 3, |names|
  {
    if names != [] {
      if names[0] in children.m {
        PathsLengthen(children.m[names[0]], path + "." + names[0]);
      }
      FieldsLengthen(children, names[1..], path);
    }
  }

  lemma {:induction false} BeneathIsSmaller(root: Json, chain: seq<Json>)
    requires WellFormed(root) && Beneath(root, chain) && |chain| >= 2
    ensures chain[|chain| - 1] < root
    decreases |chain|
  {
    var p := WalkVisitsHeld(root, "", chain[1]);
    if |chain| > 2 {
      BeneathIsSmaller(chain[1], chain[1..]);
    }
  }

  // A schema strictly below the root is visited under a longer path than the root's.
  lemma VisitedBelow(root: Json, path: string, chain: seq<Json>) returns (visit: Visit)
    requires WellFormed(root) && Beneath(root, chain) && |chain| >= 2
    ensures visit in WalkSubschemas(root, path) && visit.node == chain[|chain| - 1] && |visit.path| > |path|
  {
    hide WalkSubschemas;
    WalkIsComplete(root, path, chain);
    PathsLengthen(root, path);
    BeneathIsSmaller(root, chain);
    var visits := WalkSubschemas(root, path);
    var i :| 0 <= i < |visits| && visits[i].node == chain[|chain| - 1];
    visit := visits[i];
    assert visits[1..][i - 1] == visit;
  }
}
