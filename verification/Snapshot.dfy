// own_and_audit of schema_preparation_cache.py on the object memory itself: the walk
// allocates a copy of every container, so nothing the caller can still change is shared.
module Snapshot {
  import opened Json
  import opened OwnAndAudit

  // Every object of g is still there, as it was.
  ghost predicate Extends(g: Graph, h: Graph) {
    forall id :: id in g ==> id in h && h[id] == g[id]
  }

  // A value the walk made: a scalar, or a container that is not one of g's.
  ghost predicate Made(g: Graph, h: Graph, r: Ref) {
    r.At? ==> r.id in h && r.id !in g
  }

  // The containers the walk made lead only to what it made.
  ghost predicate Separate(g: Graph, h: Graph) {
    forall id :: id in h && id !in g ==>
      match h[id]
      case PyList(items) => forall r :: r in items ==> Made(g, h, r)
      case PyDict(entries) => forall e :: e in entries ==> Made(g, h, e.value)
  }

  // h has grown from g by copies alone.
  ghost predicate Grown(g: Graph, h: Graph) {
    Extends(g, h) && Separate(g, h)
  }

  class Memory {
    var objects: Graph
    var next: Id

    ghost predicate Valid()
      reads this
    {
      forall id :: id in objects ==> id < next
    }

    method Allocate(c: Container) returns (id: Id)
      requires Valid()
      modifies this
      ensures Valid() && id !in old(objects) && objects == old(objects)[id := c]
    {
      id := next;
      objects, next := objects[id := c], next + 1;
    }

    // Cacheable exactly when the graph at `node` unfolds to plain JSON. The snapshot then
    // unfolds to the same tree, every container in it was made by this call, and the
    // caller's own objects are as they were.
    method Own(node: Ref) returns (owned: Ref, cacheable: bool)
      requires Valid() && Closed(objects) && Known(objects, node)
      modifies this
      ensures Valid() && Grown(old(objects), objects)
      ensures cacheable <==> exists j :: Unfolds(old(objects), node, j)
      ensures cacheable ==> Made(old(objects), objects, owned)
      ensures cacheable ==> forall j :: Unfolds(old(objects), node, j) <==> Unfolds(objects, owned, j)
    {
      ghost var g := objects;
      owned, cacheable := OwnNode(g, node, {});
      CacheableExactlyWhenItUnfolds(g, node);
      if cacheable {
        ghost var tree := OwnAndAudit.Own(g, node, {}).value;
        OwnedUnfolds(g, node, {});
        forall j | Unfolds(objects, owned, j) ensures j == tree {
          UnfoldsOnce(objects, owned, j, tree);
        }
      }
    }

    // _own: g is the memory the walk began in.
    method OwnNode(ghost g: Graph, node: Ref, active: set<Id>) returns (owned: Ref, ok: bool)
      requires Valid() && Closed(g) && Known(g, node) && Grown(g, objects)
      modifies this
      ensures Valid() && Grown(g, objects) && Extends(old(objects), objects)
      ensures ok <==> OwnAndAudit.Own(g, node, active).Some?
      ensures ok ==> Made(g, objects, owned) && Unfolds(objects, owned, OwnAndAudit.Own(g, node, active).value)
      decreases g.Keys - active, 0, 0
    {
      owned, ok := node, false;
      if node.Scalar? {
        ok := OwnLeaf(node.leaf).Some?;
        return;
      }
      if node.id in active {
        return;
      }
      match objects[node.id]
      case PyDict(entries) => owned, ok := OwnDict(g, node.id, entries, active + {node.id});
      case PyList(items) => owned, ok := OwnList(g, node.id, items, active + {node.id});
    }

    method OwnList(ghost g: Graph, id: Id, items: seq<Ref>, active: set<Id>) returns (owned: Ref, ok: bool)
      requires Valid() && Closed(g) && Grown(g, objects) && id in g && g[id] == PyList(items) && id in active
      modifies this
      ensures Valid() && Grown(g, objects) && Extends(old(objects), objects)
      ensures ok <==> OwnItems(g, items, active).Some?
      ensures ok ==> Made(g, objects, owned) && Unfolds(objects, owned, JArr(OwnItems(g, items, active).value))
      decreases g.Keys - active, 3, 0
    {
      hide Closed, Unfolds, Separate, OwnAndAudit.Own;
      owned, ok := At(id), false;
      var copied: seq<Ref> := [];
      ItemsKnown(g, id);
      for i := 0 to |items|
        invariant Valid() && Grown(g, objects) && Extends(old(objects), objects)
        invariant OwnItems(g, items[..i], active).Some?
        invariant CopiedItems(g, objects, copied, OwnItems(g, items[..i], active).value)
      {
        assert items[..i + 1][..i] == items[..i];
        ItemsStuck(g, items, active, i + 1);
        ghost var before, trees := objects, OwnItems(g, items[..i], active).value;
        assert items[i] in items;
        var child, good := OwnNode(g, items[i], active);
        if !good {
          return;
        }
        CopiedOneMoreItem(g, before, objects, copied, trees, child, OwnAndAudit.Own(g, items[i], active).value);
        copied := copied + [child];
      }
      assert items[..|items|] == items;
      ghost var before, trees := objects, OwnItems(g, items, active).value;
      var made := Allocate(PyList(copied));
      AllocatedList(g, before, made, copied, trees);
      owned, ok := At(made), true;
    }

    method OwnDict(ghost g: Graph, id: Id, entries: seq<Entry>, active: set<Id>) returns (owned: Ref, ok: bool)
      requires Valid() && Closed(g) && Grown(g, objects) && id in g && g[id] == PyDict(entries) && id in active
      modifies this
      ensures Valid() && Grown(g, objects) && Extends(old(objects), objects)
      ensures ok <==> OwnEntries(g, entries, active).Some?
      ensures ok ==> Made(g, objects, owned) && Unfolds(objects, owned, OwnEntries(g, entries, active).value)
      decreases g.Keys - active, 3, 0
    {
      hide Closed, Unfolds, Separate, OwnAndAudit.Own;
      owned, ok := At(id), false;
      var copied: seq<Entry> := [];
      EntriesKnown(g, id);
      for i := 0 to |entries|
        invariant Valid() && Grown(g, objects) && Extends(old(objects), objects)
        invariant OwnEntries(g, entries[..i], active).Some?
        invariant CopiedEntries(g, objects, copied, OwnEntries(g, entries[..i], active).value)
      {
        assert entries[..i + 1][..i] == entries[..i];
        EntriesStuck(g, entries, active, i + 1);
        if !entries[i].key.StrKey? {
          return;
        }
        ghost var before, tree := objects, OwnEntries(g, entries[..i], active).value;
        assert entries[i] in entries;
        var child, good := OwnNode(g, entries[i].value, active);
        if !good {
          return;
        }
        KeyIsNew(g, entries, active, i);
        CopiedOneMoreEntry(g, before, objects, copied, tree, entries[i].key.s, child, OwnAndAudit.Own(g, entries[i].value, active).value);
        copied := copied + [Entry(entries[i].key, child)];
      }
      assert entries[..|entries|] == entries;
      ghost var before, tree := objects, OwnEntries(g, entries, active).value;
      var made := Allocate(PyDict(copied));
      AllocatedDict(g, before, made, copied, tree);
      owned, ok := At(made), true;
    }
  }

  // ------------------------------------------------------------------------------
  // Copies in the making
  // ------------------------------------------------------------------------------

  ghost predicate CopiedItems(g: Graph, h: Graph, copied: seq<Ref>, trees: seq<Json>) {
    |copied| == |trees| && forall i :: 0 <= i < |copied| ==> Made(g, h, copied[i]) && Unfolds(h, copied[i], trees[i])
  }

  ghost predicate CopiedEntries(g: Graph, h: Graph, copied: seq<Entry>, tree: Json) {
    && tree.JObj? && |copied| == |tree.keys|
    && (forall k :: k in tree.keys <==> k in tree.m)
    && forall i :: 0 <= i < |copied| ==>
         copied[i].key == StrKey(tree.keys[i]) && Made(g, h, copied[i].value)
         && tree.keys[i] in tree.m && Unfolds(h, copied[i].value, tree.m[tree.keys[i]])
  }

  lemma ItemsKnown(g: Graph, id: Id)
    requires Closed(g) && id in g && g[id].PyList?
    ensures forall r :: r in g[id].items ==> Known(g, r)
  {
  }

  lemma EntriesKnown(g: Graph, id: Id)
    requires Closed(g) && id in g && g[id].PyDict?
    ensures forall e :: e in g[id].entries ==> Known(g, e.value)
    ensures forall i, j :: 0 <= i < j < |g[id].entries| ==> g[id].entries[i].key != g[id].entries[j].key
  {
  }

  // What more objects cannot change.
  lemma {:induction false} UnfoldsStill(g: Graph, h: Graph, r: Ref, j: Json)
    requires Extends(g, h) && Unfolds(g, r, j)
    ensures Unfolds(h, r, j)
    decreases j
  {
    if r.At? {
      match g[r.id]
      case PyList(items) =>
        forall i | 0 <= i < |items| ensures Unfolds(h, items[i], j.items[i]) {
          UnfoldsStill(g, h, items[i], j.items[i]);
        }
      case PyDict(entries) =>
        forall i | 0 <= i < |entries| ensures Unfolds(h, entries[i].value, j.m[j.keys[i]]) {
          UnfoldsStill(g, h, entries[i].value, j.m[j.keys[i]]);
        }
    }
  }

  lemma CopiedOneMoreItem(g: Graph, h: Graph, h': Graph, copied: seq<Ref>, trees: seq<Json>, child: Ref, tree: Json)
    requires Extends(h, h') && CopiedItems(g, h, copied, trees) && Made(g, h', child) && Unfolds(h', child, tree)
    ensures CopiedItems(g, h', copied + [child], trees + [tree])
  {
    hide Unfolds;
    forall i | 0 <= i < |copied| ensures Unfolds(h', copied[i], trees[i]) {
      UnfoldsStill(h, h', copied[i], trees[i]);
    }
  }

  lemma CopiedOneMoreEntry(g: Graph, h: Graph, h': Graph, copied: seq<Entry>, tree: Json, key: string, child: Ref, value: Json)
    requires Extends(h, h') && CopiedEntries(g, h, copied, tree) && key !in tree.keys
    requires Made(g, h', child) && Unfolds(h', child, value)
    ensures CopiedEntries(g, h', copied + [Entry(StrKey(key), child)], JObj(tree.keys + [key], tree.m[key := value]))
  {
    hide Unfolds;
    forall i | 0 <= i < |copied| ensures Unfolds(h', copied[i].value, tree.m[tree.keys[i]]) {
      UnfoldsStill(h, h', copied[i].value, tree.m[tree.keys[i]]);
    }
    forall i | 0 <= i < |copied| ensures tree.keys[i] != key {
      assert tree.keys[i] in tree.keys;
    }
  }

  // A dict lists each key once, so no copy is overwritten.
  lemma KeyIsNew(g: Graph, entries: seq<Entry>, active: set<Id>, i: nat)
    requires Closed(g) && (forall e :: e in entries ==> Known(g, e.value)) && i < |entries| && entries[i].key.StrKey?
    requires forall a, b :: 0 <= a < b < |entries| ==> entries[a].key != entries[b].key
    requires OwnEntries(g, entries[..i], active).Some?
    ensures entries[i].key.s !in OwnEntries(g, entries[..i], active).value.keys
  {
    hide Closed, Unfolds, OwnAndAudit.Own, OwnEntries;
    EntriesUnfold(g, entries[..i], active);
    var j := OwnEntries(g, entries[..i], active).value;
    forall a | 0 <= a < |j.keys| ensures j.keys[a] != entries[i].key.s {
      assert entries[..i][a] == entries[a];
    }
  }

  lemma AllocatedList(g: Graph, h: Graph, made: Id, copied: seq<Ref>, trees: seq<Json>)
    requires Grown(g, h) && made !in h && CopiedItems(g, h, copied, trees)
    ensures var h' := h[made := PyList(copied)];
            Grown(g, h') && Extends(h, h') && Made(g, h', At(made)) && Unfolds(h', At(made), JArr(trees))
  {
    var h' := h[made := PyList(copied)];
    forall i | 0 <= i < |copied| ensures Unfolds(h', copied[i], trees[i]) {
      UnfoldsStill(h, h', copied[i], trees[i]);
    }
  }

  lemma AllocatedDict(g: Graph, h: Graph, made: Id, copied: seq<Entry>, tree: Json)
    requires Grown(g, h) && made !in h && CopiedEntries(g, h, copied, tree)
    ensures var h' := h[made := PyDict(copied)];
            Grown(g, h') && Extends(h, h') && Made(g, h', At(made)) && Unfolds(h', At(made), tree)
  {
    var h' := h[made := PyDict(copied)];
    forall i | 0 <= i < |copied| ensures Unfolds(h', copied[i].value, tree.m[tree.keys[i]]) {
      UnfoldsStill(h, h', copied[i].value, tree.m[tree.keys[i]]);
    }
  }

  // ------------------------------------------------------------------------------
  // The main result
  // ------------------------------------------------------------------------------

  // Whatever the caller does to its own objects afterwards, or to any it makes later, the
  // snapshot stays the tree it was.
  lemma {:induction false} CallerCannotReachTheSnapshot(g: Graph, h: Graph, later: Graph, owned: Ref, j: Json)
    requires Separate(g, h) && Made(g, h, owned) && Unfolds(h, owned, j)
    requires forall id :: id in h && id !in g ==> id in later && later[id] == h[id]
    ensures Unfolds(later, owned, j)
    decreases j
  {
    if owned.At? {
      match h[owned.id]
      case PyList(items) =>
        forall i | 0 <= i < |items| ensures Unfolds(later, items[i], j.items[i]) {
          assert items[i] in items;
          CallerCannotReachTheSnapshot(g, h, later, items[i], j.items[i]);
        }
      case PyDict(entries) =>
        forall i | 0 <= i < |entries| ensures Unfolds(later, entries[i].value, j.m[j.keys[i]]) {
          assert entries[i] in entries;
          CallerCannotReachTheSnapshot(g, h, later, entries[i].value, j.m[j.keys[i]]);
        }
    }
  }
}
