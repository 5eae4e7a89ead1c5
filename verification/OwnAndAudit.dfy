// own_and_audit of schema_preparation_cache.py: one walk over a graph of Python objects
// that copies it and decides whether it is plain JSON at all. The graph may share
// containers and may be cyclic; the walk tracks only the containers on its own path.
module OwnAndAudit {
  import opened Options
  import opened Json

  type Id = nat

  datatype Leaf =
    | PyNone
    | PyBool(b: bool)
    | PyInt(n: int)
    | PyFloat(x: real)
    | PyNonFinite              // NaN or an infinity
    | PyStr(s: string)
    | PyForeign                // any other object: tuples, subclasses of dict and list, ...

  datatype DictKey = StrKey(s: string) | ForeignKey(n: int)

  datatype Ref = Scalar(leaf: Leaf) | At(id: Id)

  datatype Entry = Entry(key: DictKey, value: Ref)

  datatype Container = PyDict(entries: seq<Entry>) | PyList(items: seq<Ref>)

  type Graph = map<Id, Container>

  ghost predicate Known(g: Graph, r: Ref) {
    r.At? ==> r.id in g
  }

  // Every reference leads somewhere, and a dict lists each key once.
  ghost predicate Closed(g: Graph) {
    forall id :: id in g ==>
      match g[id]
      case PyList(items) => forall r :: r in items ==> Known(g, r)
      case PyDict(entries) =>
        && (forall e :: e in entries ==> Known(g, e.value))
        && (forall i, j :: 0 <= i < j < |entries| ==> entries[i].key != entries[j].key)
  }

  // ------------------------------------------------------------------------------
  // The walk
  // ------------------------------------------------------------------------------

  function OwnLeaf(leaf: Leaf): Option<Json> {
    match leaf
    case PyNone => Some(JNull)
    case PyBool(b) => Some(JBool(b))
    case PyInt(n) => Some(JInt(n))
    case PyFloat(x) => Some(JFloat(x))
    case PyStr(s) => Some(JStr(s))
    case PyNonFinite => None
    case PyForeign => None
  }

  // _own: `active` holds the containers on the current path.
  function Own(g: Graph, r: Ref, active: set<Id>): Option<Json>
    requires Closed(g) && Known(g, r)
    decreases g.Keys - active, 1, 0
  {
    match r
    case Scalar(leaf) => OwnLeaf(leaf)
    case At(id) =>
      if id in active then None
      else
        match g[id]
        case PyDict(entries) => OwnEntries(g, entries, active + {id})
        case PyList(items) =>
          match OwnItems(g, items, active + {id})
          case None => None
          case Some(owned) => Some(JArr(owned))
  }

  function OwnItems(g: Graph, items: seq<Ref>, active: set<Id>): (r: Option<seq<Json>>)
    requires Closed(g) && forall r :: r in items ==> Known(g, r)
    ensures r.Some? ==> |r.value| == |items|
    decreases g.Keys - active, 2, |items|
  {
    if items == [] then Some([])
    else
      var n := |items| - 1;
      match OwnItems(g, items[..n], active)
      case None => None
      case Some(owned) =>
        match Own(g, items[n], active)
        case None => None
        case Some(child) => Some(owned + [child])
  }

  function OwnEntries(g: Graph, entries: seq<Entry>, active: set<Id>): (r: Option<Json>)
    requires Closed(g) && forall e :: e in entries ==> Known(g, e.value)
    ensures r.Some? ==> r.value.JObj? && |r.value.keys| == |entries|
    decreases g.Keys - active, 2, |entries|
  {
    if entries == [] then Some(JObj([], map[]))
    else
      var n := |entries| - 1;
      match OwnEntries(g, entries[..n], active)
      case None => None
      case Some(owned) =>
        if !entries[n].key.StrKey? then None
        else
          match Own(g, entries[n].value, active)
          case None => None
          case Some(child) =>
            Some(JObj(owned.keys + [entries[n].key.s], owned.m[entries[n].key.s := child]))
  }

  // Once a prefix is refused, so is the whole container.
  lemma {:induction false} ItemsStuck(g: Graph, items: seq<Ref>, active: set<Id>, i: nat)
    requires Closed(g) && (forall r :: r in items ==> Known(g, r)) && i <= |items|
    ensures OwnItems(g, items[..i], active).None? ==> OwnItems(g, items, active).None?
    decreases |items|
  {
    if i < |items| {
      assert items[..|items| - 1][..i] == items[..i];
      ItemsStuck(g, items[..|items| - 1], active, i);
    } else {
      assert items[..i] == items;
    }
  }

  lemma {:induction false} EntriesStuck(g: Graph, entries: seq<Entry>, active: set<Id>, i: nat)
    requires Closed(g) && (forall e :: e in entries ==> Known(g, e.value)) && i <= |entries|
    ensures OwnEntries(g, entries[..i], active).None? ==> OwnEntries(g, entries, active).None?
    decreases |entries|
  {
    if i < |entries| {
      assert entries[..|entries| - 1][..i] == entries[..i];
      EntriesStuck(g, entries[..|entries| - 1], active, i);
    } else {
      assert entries[..i] == entries;
    }
  }

  // ------------------------------------------------------------------------------
  // What it means for a graph to be plain JSON: it unfolds to a finite tree
  // ------------------------------------------------------------------------------

  predicate IsScalar(j: Json) {
    !j.JArr? && !j.JObj?
  }

  // The Python object a JSON scalar is.
  function PythonLeaf(j: Json): Leaf
    requires IsScalar(j)
  {
    match j
    case JNull => PyNone
    case JBool(b) => PyBool(b)
    case JInt(n) => PyInt(n)
    case JFloat(x) => PyFloat(x)
    case JStr(s) => PyStr(s)
  }

  // A leaf is owned as the scalar it is, True as true and 1 as 1, and every scalar is the
  // image of its own leaf and no other.
  lemma OwnedLeafIsItself(leaf: Leaf, j: Json)
    ensures OwnLeaf(leaf) == Some(j) <==> IsScalar(j) && leaf == PythonLeaf(j)
  {
  }

  ghost predicate Unfolds(g: Graph, r: Ref, j: Json)
    decreases j
  {
    match r
    case Scalar(leaf) => IsScalar(j) && leaf == PythonLeaf(j)
    case At(id) =>
      id in g &&
      match g[id]
      case PyList(items) =>
        j.JArr? && |j.items| == |items| && forall i :: 0 <= i < |items| ==> Unfolds(g, items[i], j.items[i])
      case PyDict(entries) =>
        && j.JObj? && |j.keys| == |entries|
        && (forall k :: k in j.keys <==> k in j.m)
        && (forall i :: 0 <= i < |entries| ==> entries[i].key == StrKey(j.keys[i]))
        && (forall i :: 0 <= i < |entries| ==> j.keys[i] in j.m && Unfolds(g, entries[i].value, j.m[j.keys[i]]))
  }

  // What is owned is the tree the graph unfolds to.
  lemma {:induction false} OwnedUnfolds(g: Graph, r: Ref, active: set<Id>)
    requires Closed(g) && Known(g, r) && Own(g, r, active).Some?
    ensures Unfolds(g, r, Own(g, r, active).value)
    decreases g.Keys - active, 1, 0
  {
    if r.At? {
      match g[r.id]
      case PyList(items) => ItemsUnfold(g, items, active + {r.id});
      case PyDict(entries) => EntriesUnfold(g, entries, active + {r.id});
    }
  }

  lemma {:induction false} ItemsUnfold(g: Graph, items: seq<Ref>, active: set<Id>)
    requires Closed(g) && (forall r :: r in items ==> Known(g, r)) && OwnItems(g, items, active).Some?
    ensures var owned := OwnItems(g, items, active).value;
            forall i :: 0 <= i < |items| ==> Unfolds(g, items[i], owned[i])
    decreases g.Keys - active, 2, |items|
  {
    if items != [] {
      ItemsUnfold(g, items[..|items| - 1], active);
      OwnedUnfolds(g, items[|items| - 1], active);
    }
  }

  lemma {:induction false} EntriesUnfold(g: Graph, entries: seq<Entry>, active: set<Id>)
    requires Closed(g) && (forall e :: e in entries ==> Known(g, e.value)) && OwnEntries(g, entries, active).Some?
    requires forall i, j :: 0 <= i < j < |entries| ==> entries[i].key != entries[j].key
    ensures var j := OwnEntries(g, entries, active).value;
            && (forall k :: k in j.keys <==> k in j.m)
            && (forall i :: 0 <= i < |entries| ==> entries[i].key == StrKey(j.keys[i]))
            && (forall i :: 0 <= i < |entries| ==> j.keys[i] in j.m && Unfolds(g, entries[i].value, j.m[j.keys[i]]))
    decreases g.Keys - active, 2, |entries|
  {
    hide Unfolds, Closed, Known, Own;
    if entries != [] {
      var n := |entries| - 1;
      EntriesUnfold(g, entries[..n], active);
      OwnedUnfolds(g, entries[n].value, active);
      EntryAdded(g, entries, OwnEntries(g, entries[..n], active).value, entries[n].key.s, Own(g, entries[n].value, active).value);
    }
  }

  lemma EntryAdded(g: Graph, entries: seq<Entry>, owned: Json, key: string, child: Json)
    requires entries != [] && owned.JObj? && |owned.keys| == |entries| - 1
    requires forall k :: k in owned.keys <==> k in owned.m
    requires forall i :: 0 <= i < |entries| - 1 ==> entries[i].key == StrKey(owned.keys[i]) && entries[i].key != StrKey(key)
    requires forall i :: 0 <= i < |entries| - 1 ==> owned.keys[i] in owned.m && Unfolds(g, entries[i].value, owned.m[owned.keys[i]])
    requires entries[|entries| - 1].key == StrKey(key) && Unfolds(g, entries[|entries| - 1].value, child)
    ensures var keys, m := owned.keys + [key], owned.m[key := child];
            && (forall k :: k in keys <==> k in m)
            && (forall i :: 0 <= i < |entries| ==> entries[i].key == StrKey(keys[i]))
            && (forall i :: 0 <= i < |entries| ==> keys[i] in m && Unfolds(g, entries[i].value, m[keys[i]]))
  {
    hide Unfolds;
  }

  lemma {:induction false} UnfoldingIsWellFormed(g: Graph, r: Ref, j: Json)
    requires Closed(g) && Unfolds(g, r, j)
    ensures WellFormed(j)
    decreases j
  {
    if r.At? {
      match g[r.id]
      case PyList(items) =>
        forall i | 0 <= i < |items| ensures WellFormed(j.items[i]) {
          UnfoldingIsWellFormed(g, items[i], j.items[i]);
        }
      case PyDict(entries) =>
        forall k | k in j.m ensures WellFormed(j.m[k]) {
          var i :| 0 <= i < |entries| && j.keys[i] == k;
          UnfoldingIsWellFormed(g, entries[i].value, j.m[k]);
        }
        assert forall i :: 0 <= i < |entries| ==> StrKey(j.keys[i]) == entries[i].key;
    }
  }

  // A graph unfolds to at most one tree.
  lemma {:induction false} UnfoldsOnce(g: Graph, r: Ref, a: Json, b: Json)
    requires Unfolds(g, r, a) && Unfolds(g, r, b)
    ensures a == b
    decreases a
  {
    if r.At? {
      match g[r.id]
      case PyList(items) =>
        forall i | 0 <= i < |items| ensures a.items[i] == b.items[i] {
          UnfoldsOnce(g, items[i], a.items[i], b.items[i]);
        }
      case PyDict(entries) =>
        assert forall i :: 0 <= i < |entries| ==> StrKey(a.keys[i]) == entries[i].key == StrKey(b.keys[i]);
        assert a.keys == b.keys;
        forall k | k in a.m ensures k in b.m && a.m[k] == b.m[k] {
          var i :| 0 <= i < |entries| && a.keys[i] == k;
          UnfoldsOnce(g, entries[i].value, a.m[k], b.m[k]);
        }
        assert forall k :: k in b.m ==> k in b.keys;
        assert a.m.Keys == b.m.Keys;
    }
  }

  // Whatever is on the path unfolds to a strictly larger tree.
  ghost predicate Above(g: Graph, active: set<Id>, trees: map<Id, Json>, j: Json) {
    forall id :: id in active ==> id in trees && Unfolds(g, At(id), trees[id]) && j < trees[id]
  }

  lemma {:induction false} UnfoldingIsOwned(g: Graph, r: Ref, j: Json, active: set<Id>, trees: map<Id, Json>)
    requires Closed(g) && Known(g, r) && Unfolds(g, r, j) && Above(g, active, trees, j)
    ensures Own(g, r, active).Some?
    decreases j, 1, 0
  {
    if r.At? {
      if r.id in active {
        UnfoldsOnce(g, r, j, trees[r.id]);
      }
      var active', trees' := active + {r.id}, trees[r.id := j];
      match g[r.id]
      case PyList(items) =>
        forall i | 0 <= i < |items| ensures Own(g, items[i], active').Some? {
          UnfoldingIsOwned(g, items[i], j.items[i], active', trees');
        }
        AllItemsOwned(g, items, active');
      case PyDict(entries) =>
        forall i | 0 <= i < |entries| ensures entries[i].key.StrKey? && Own(g, entries[i].value, active').Some? {
          UnfoldingIsOwned(g, entries[i].value, j.m[j.keys[i]], active', trees');
        }
        AllEntriesOwned(g, entries, active');
    }
  }

  lemma {:induction false} AllItemsOwned(g: Graph, items: seq<Ref>, active: set<Id>)
    requires Closed(g) && forall r :: r in items ==> Known(g, r)
    requires forall i :: 0 <= i < |items| ==> Own(g, items[i], active).Some?
    ensures OwnItems(g, items, active).Some?
  {
    if items != [] {
      AllItemsOwned(g, items[..|items| - 1], active);
    }
  }

  lemma {:induction false} AllEntriesOwned(g: Graph, entries: seq<Entry>, active: set<Id>)
    requires Closed(g) && forall e :: e in entries ==> Known(g, e.value)
    requires forall i :: 0 <= i < |entries| ==> entries[i].key.StrKey? && Own(g, entries[i].value, active).Some?
    ensures OwnEntries(g, entries, active).Some?
  {
    if entries != [] {
      AllEntriesOwned(g, entries[..|entries| - 1], active);
    }
  }

  // Cacheable means exactly: the graph unfolds to a finite JSON tree, and the snapshot is it.
  lemma CacheableExactlyWhenItUnfolds(g: Graph, r: Ref)
    requires Closed(g) && Known(g, r)
    ensures Own(g, r, {}).Some? <==> exists j :: Unfolds(g, r, j)
    ensures forall j :: Unfolds(g, r, j) ==> Own(g, r, {}) == Some(j)
  {
    if Own(g, r, {}).Some? {
      OwnedUnfolds(g, r, {});
      var j := Own(g, r, {}).value;
      assert Unfolds(g, r, j);
    }
    forall j | Unfolds(g, r, j) ensures Own(g, r, {}) == Some(j) {
      UnfoldingIsOwned(g, r, j, {}, map[]);
      OwnedUnfolds(g, r, {});
      UnfoldsOnce(g, r, j, Own(g, r, {}).value);
    }
  }

  // ------------------------------------------------------------------------------
  // Which graphs have the same snapshot
  // ------------------------------------------------------------------------------

  // What a caller sees of an object without its identity.
  datatype Shape = LeafShape(leaf: Leaf) | ListShape(size: nat) | DictShape(keys: seq<DictKey>)

  // The object at a path of positions, if there is one.
  function Reached(g: Graph, r: Ref, path: seq<nat>): Option<Ref>
    decreases |path|
  {
    if path == [] then Some(r)
    else if r.Scalar? || r.id !in g then None
    else
      match g[r.id]
      case PyList(items) => if path[0] < |items| then Reached(g, items[path[0]], path[1..]) else None
      case PyDict(entries) => if path[0] < |entries| then Reached(g, entries[path[0]].value, path[1..]) else None
  }

  function KeysOf(entries: seq<Entry>): seq<DictKey> {
    seq(|entries|, i requires 0 <= i < |entries| => entries[i].key)
  }

  function ShapeOf(g: Graph, r: Ref): Option<Shape> {
    match r
    case Scalar(leaf) => Some(LeafShape(leaf))
    case At(id) =>
      if id !in g then None
      else
        match g[id]
        case PyList(items) => Some(ListShape(|items|))
        case PyDict(entries) => Some(DictShape(KeysOf(entries)))
  }

  function Seen(g: Graph, r: Ref, path: seq<nat>): Option<Shape> {
    match Reached(g, r, path)
    case None => None
    case Some(there) => ShapeOf(g, there)
  }

  lemma {:induction false} SameTreeSeenAlike(g: Graph, r: Ref, h: Graph, s: Ref, j: Json, path: seq<nat>)
    requires Unfolds(g, r, j) && Unfolds(h, s, j)
    ensures Seen(g, r, path) == Seen(h, s, path)
    decreases |path|
  {
    if r.At? && g[r.id].PyDict? {
      assert KeysOf(g[r.id].entries) == KeysOf(h[s.id].entries);
    }
    if path != [] && r.At? {
      match g[r.id]
      case PyList(items) =>
        if path[0] < |items| {
          SameTreeSeenAlike(g, items[path[0]], h, h[s.id].items[path[0]], j.items[path[0]], path[1..]);
        }
      case PyDict(entries) =>
        if path[0] < |entries| {
          SameTreeSeenAlike(g, entries[path[0]].value, h, h[s.id].entries[path[0]].value, j.m[j.keys[path[0]]], path[1..]);
        }
    }
  }

  lemma SeenBelow(g: Graph, r: Ref, i: nat, path: seq<nat>)
    requires r.At? && r.id in g
    ensures g[r.id].PyList? && i < |g[r.id].items| ==> Seen(g, r, [i] + path) == Seen(g, g[r.id].items[i], path)
    ensures g[r.id].PyDict? && i < |g[r.id].entries| ==> Seen(g, r, [i] + path) == Seen(g, g[r.id].entries[i].value, path)
  {
    assert ([i] + path)[1..] == path;
  }

  lemma {:induction false} SeenAlikeSameTree(g: Graph, r: Ref, j: Json, h: Graph, s: Ref, k: Json)
    requires Unfolds(g, r, j) && Unfolds(h, s, k) && forall path :: Seen(g, r, path) == Seen(h, s, path)
    ensures j == k
    decreases j
  {
    assert Seen(g, r, []) == Seen(h, s, []);
    if r.At? {
      match g[r.id]
      case PyList(items) =>
        forall i | 0 <= i < |items| ensures j.items[i] == k.items[i] {
          ChildrenSeenAlike(g, r, h, s, i);
          SeenAlikeSameTree(g, items[i], j.items[i], h, h[s.id].items[i], k.items[i]);
        }
      case PyDict(entries) =>
        SameKeysSeen(entries, j.keys, h[s.id].entries, k.keys);
        forall i | 0 <= i < |entries| ensures j.m[j.keys[i]] == k.m[k.keys[i]] {
          ChildrenSeenAlike(g, r, h, s, i);
          SeenAlikeSameTree(g, entries[i].value, j.m[j.keys[i]], h, h[s.id].entries[i].value, k.m[k.keys[i]]);
        }
        SameKeysSameMap(j.keys, j.m, k.m);
    }
  }

  lemma SameKeysSeen(entries: seq<Entry>, keys: seq<string>, others: seq<Entry>, keys': seq<string>)
    requires KeysOf(entries) == KeysOf(others) && |keys| == |entries| && |keys'| == |others|
    requires forall i :: 0 <= i < |entries| ==> entries[i].key == StrKey(keys[i])
    requires forall i :: 0 <= i < |others| ==> others[i].key == StrKey(keys'[i])
    ensures keys == keys'
  {
    assert |KeysOf(entries)| == |entries| && |KeysOf(others)| == |others|;
    forall i | 0 <= i < |keys| ensures keys[i] == keys'[i] {
      assert KeysOf(entries)[i] == KeysOf(others)[i];
    }
  }

  lemma SameKeysSameMap(keys: seq<string>, m: map<string, Json>, n: map<string, Json>)
    requires (forall k :: k in keys <==> k in m) && (forall k :: k in keys <==> k in n)
    requires forall i :: 0 <= i < |keys| ==> keys[i] in m && keys[i] in n && m[keys[i]] == n[keys[i]]
    ensures m == n
  {
    assert m.Keys == n.Keys;
    forall k | k in m ensures m[k] == n[k] {
      var i :| 0 <= i < |keys| && keys[i] == k;
    }
  }

  lemma ChildrenSeenAlike(g: Graph, r: Ref, h: Graph, s: Ref, i: nat)
    requires r.At? && r.id in g && s.At? && s.id in h && forall path :: Seen(g, r, path) == Seen(h, s, path)
    ensures g[r.id].PyList? && i < |g[r.id].items| && h[s.id].PyList? && i < |h[s.id].items| ==>
              forall path :: Seen(g, g[r.id].items[i], path) == Seen(h, h[s.id].items[i], path)
    ensures g[r.id].PyDict? && i < |g[r.id].entries| && h[s.id].PyDict? && i < |h[s.id].entries| ==>
              forall path :: Seen(g, g[r.id].entries[i].value, path) == Seen(h, h[s.id].entries[i].value, path)
  {
    hide Seen;
    forall path: seq<nat>
      ensures Seen(g, r, [i] + path) == Seen(h, s, [i] + path)
      ensures g[r.id].PyList? && i < |g[r.id].items| ==> Seen(g, r, [i] + path) == Seen(g, g[r.id].items[i], path)
      ensures g[r.id].PyDict? && i < |g[r.id].entries| ==> Seen(g, r, [i] + path) == Seen(g, g[r.id].entries[i].value, path)
      ensures h[s.id].PyList? && i < |h[s.id].items| ==> Seen(h, s, [i] + path) == Seen(h, h[s.id].items[i], path)
      ensures h[s.id].PyDict? && i < |h[s.id].entries| ==> Seen(h, s, [i] + path) == Seen(h, h[s.id].entries[i].value, path)
    {
      SeenBelow(g, r, i, path);
      SeenBelow(h, s, i, path);
    }
  }

  // Two owned graphs have the same snapshot exactly when they look the same at every path:
  // the same leaves of the same types, lists of the same length, dicts with the same keys in
  // the same order.
  lemma SameSnapshotExactlyWhenSeenAlike(g: Graph, r: Ref, h: Graph, s: Ref)
    requires Closed(g) && Known(g, r) && Own(g, r, {}).Some?
    requires Closed(h) && Known(h, s) && Own(h, s, {}).Some?
    ensures Own(g, r, {}) == Own(h, s, {}) <==> forall path :: Seen(g, r, path) == Seen(h, s, path)
  {
    hide Own, Closed, Known, Seen, Unfolds;
    OwnedUnfolds(g, r, {});
    OwnedUnfolds(h, s, {});
    var j, k := Own(g, r, {}).value, Own(h, s, {}).value;
    if j == k {
      forall path ensures Seen(g, r, path) == Seen(h, s, path) {
        SameTreeSeenAlike(g, r, h, s, j, path);
      }
    }
    if forall path :: Seen(g, r, path) == Seen(h, s, path) {
      SeenAlikeSameTree(g, r, j, h, s, k);
    }
  }

  // ------------------------------------------------------------------------------
  // Why a graph is refused
  // ------------------------------------------------------------------------------

  ghost predicate Child(g: Graph, parent: Ref, child: Ref) {
    parent.At? && parent.id in g &&
    match g[parent.id]
    case PyList(items) => child in items
    case PyDict(entries) => exists i :: 0 <= i < |entries| && entries[i].value == child
  }

  ghost predicate Path(g: Graph, p: seq<Ref>) {
    p != [] && forall i :: 0 <= i < |p| - 1 ==> Child(g, p[i], p[i + 1])
  }

  ghost predicate BadNode(g: Graph, r: Ref) {
    match r
    case Scalar(leaf) => leaf.PyNonFinite? || leaf.PyForeign?
    case At(id) => id in g && g[id].PyDict? && exists i :: 0 <= i < |g[id].entries| && !g[id].entries[i].key.StrKey?
  }

  // A path to something that is not plain JSON, or back to a container already on it.
  ghost predicate Defect(g: Graph, p: seq<Ref>) {
    && Path(g, p)
    && var last := p[|p| - 1];
       BadNode(g, last) || (last.At? && last in p[..|p| - 1])
  }

  lemma {:induction false} UnfoldsAlongPath(g: Graph, p: seq<Ref>, j: Json) returns (trees: seq<Json>)
    requires Path(g, p) && Unfolds(g, p[0], j)
    ensures |trees| == |p| && trees[0] == j
    ensures forall i :: 0 <= i < |p| ==> Unfolds(g, p[i], trees[i])
    ensures forall i, k :: 0 <= i < k < |p| ==> trees[k] < trees[i]
    decreases |p|
  {
    if |p| == 1 {
      trees := [j];
    } else {
      var child := ChildTree(g, p[0], p[1], j);
      assert Path(g, p[1..]);
      var rest := UnfoldsAlongPath(g, p[1..], child);
      trees := [j] + rest;
      forall k | 0 < k < |p| ensures trees[k] < j {
        assert trees[k] == rest[k - 1] && (k - 1 == 0 || rest[k - 1] < rest[0]);
      }
    }
  }

  lemma ChildTree(g: Graph, parent: Ref, child: Ref, j: Json) returns (tree: Json)
    requires Child(g, parent, child) && Unfolds(g, parent, j)
    ensures Unfolds(g, child, tree) && tree < j
  {
    match g[parent.id]
    case PyList(items) =>
      var i :| 0 <= i < |items| && items[i] == child;
      tree := j.items[i];
    case PyDict(entries) =>
      var i :| 0 <= i < |entries| && entries[i].value == child;
      tree := j.m[j.keys[i]];
  }

  lemma DefectMeansRefused(g: Graph, p: seq<Ref>)
    requires Closed(g) && Defect(g, p) && Known(g, p[0])
    ensures Own(g, p[0], {}).None?
  {
    if Own(g, p[0], {}).Some? {
      OwnedUnfolds(g, p[0], {});
      var trees := UnfoldsAlongPath(g, p, Own(g, p[0], {}).value);
      var n := |p| - 1;
      assert Unfolds(g, p[n], trees[n]);
      if !BadNode(g, p[n]) {
        var i :| 0 <= i < n && p[i] == p[n];
        UnfoldsOnce(g, p[n], trees[i], trees[n]);
        assert false;
      }
    }
  }

  // The containers on a path.
  ghost predicate OnPath(active: set<Id>, p: seq<Ref>) {
    forall id :: id in active ==> At(id) in p
  }

  lemma {:induction false} RefusedMeansDefect(g: Graph, r: Ref, active: set<Id>, p: seq<Ref>) returns (q: seq<Ref>)
    requires Closed(g) && Known(g, r) && Own(g, r, active).None?
    requires Path(g, p + [r]) && OnPath(active, p)
    ensures Defect(g, q) && q[0] == (p + [r])[0]
    decreases g.Keys - active, 1, 0
  {
    q := p + [r];
    assert q[..|q| - 1] == p;
    if r.At? && r.id !in active {
      match g[r.id]
      case PyList(items) => q := RefusedItem(g, items, active + {r.id}, r, p);
      case PyDict(entries) => q := RefusedEntry(g, entries, active + {r.id}, r, p);
    }
  }

  lemma {:induction false} RefusedItem(g: Graph, items: seq<Ref>, active: set<Id>, r: Ref, p: seq<Ref>) returns (q: seq<Ref>)
    requires Closed(g) && (forall x :: x in items ==> Known(g, x)) && OwnItems(g, items, active).None?
    requires Path(g, p + [r]) && OnPath(active, p + [r]) && forall x :: x in items ==> Child(g, r, x)
    ensures Defect(g, q) && q[0] == (p + [r])[0]
    decreases g.Keys - active, 2, |items|
  {
    var n := |items| - 1;
    if OwnItems(g, items[..n], active).None? {
      q := RefusedItem(g, items[..n], active, r, p);
    } else {
      q := RefusedMeansDefect(g, items[n], active, p + [r]);
    }
  }

  lemma {:induction false} RefusedEntry(g: Graph, entries: seq<Entry>, active: set<Id>, r: Ref, p: seq<Ref>)
    returns (q: seq<Ref>)
    requires Closed(g) && (forall e :: e in entries ==> Known(g, e.value)) && OwnEntries(g, entries, active).None?
    requires Path(g, p + [r]) && OnPath(active, p + [r])
    requires r.At? && r.id in g && g[r.id].PyDict? && |entries| <= |g[r.id].entries| && entries == g[r.id].entries[..|entries|]
    ensures Defect(g, q) && q[0] == (p + [r])[0]
    decreases g.Keys - active, 2, |entries|
  {
    var n := |entries| - 1;
    assert g[r.id].entries[n] == entries[n];
    if OwnEntries(g, entries[..n], active).None? {
      q := RefusedEntry(g, entries[..n], active, r, p);
    } else if !entries[n].key.StrKey? {
      q := p + [r];
      assert BadNode(g, r);
    } else {
      q := RefusedMeansDefect(g, entries[n].value, active, p + [r]);
    }
  }

  // Refused means exactly: some path leads to a leaf or key that is not plain JSON, or
  // runs into a container already on it.
  lemma RefusedExactlyWhenDefective(g: Graph, r: Ref)
    requires Closed(g) && Known(g, r)
    ensures Own(g, r, {}).None? <==> exists p :: Defect(g, p) && p[0] == r
  {
    if Own(g, r, {}).None? {
      assert [] + [r] == [r] && Path(g, [r]);
      var q := RefusedMeansDefect(g, r, {}, []);
    }
    forall p | Defect(g, p) && p[0] == r ensures Own(g, r, {}).None? {
      DefectMeansRefused(g, p);
    }
  }
}
