// SchemaPreparationCache of schema_preparation_cache.py: a bounded least-recently-used
// set of markers. Residents are exactly the keys since whose last touch fewer than
// `capacity` other keys were touched.
module PreparationCache {

  // An OrderedDict whose values are all the one marker: its keys, oldest touch first.
  function Dropped<K(==)>(entries: seq<K>, key: K): seq<K> {
    if entries == [] then []
    else if entries[0] == key then entries[1..]
    else [entries[0]] + Dropped(entries[1..], key)
  }

  // entries[key] = marker; entries.move_to_end(key)
  function MovedToEnd<K(==)>(entries: seq<K>, key: K): seq<K> {
    Dropped(entries, key) + [key]
  }

  // popitem(last=False) until at most `capacity` are left.
  function LastOf<K>(entries: seq<K>, capacity: nat): seq<K> {
    if |entries| <= capacity then entries else LastOf(entries[1..], capacity)
  }

  function AfterLookup<K(==)>(entries: seq<K>, key: K): seq<K> {
    if key in entries then MovedToEnd(entries, key) else entries
  }

  function AfterMark<K(==)>(entries: seq<K>, key: K, capacity: nat): seq<K> {
    LastOf(MovedToEnd(entries, key), capacity)
  }

  class SchemaPreparationCache<K(==)> {
    const capacity: nat
    var entries: seq<K>
    var hits: nat
    var misses: nat
    var evictions: nat

    ghost predicate Valid()
      reads this
    {
      1 <= capacity && |entries| <= capacity
    }

    constructor (capacity: nat)
      requires 1 <= capacity
      ensures Valid() && entries == [] && this.capacity == capacity
      ensures hits == misses == evictions == 0
    {
      this.capacity := capacity;
      entries, hits, misses, evictions := [], 0, 0, 0;
    }

    method IsPrepared(key: K) returns (prepared: bool)
      requires Valid()
      modifies this
      ensures Valid() && prepared == (key in old(entries)) && entries == AfterLookup(old(entries), key)
      ensures hits == old(hits) + (if prepared then 1 else 0) && misses == old(misses) + (if prepared then 0 else 1)
      ensures evictions == old(evictions)
    {
      if key in entries {
        DroppedLength(entries, key);
        entries := MovedToEnd(entries, key);
        hits := hits + 1;
        return true;
      }
      misses := misses + 1;
      prepared := false;
    }

    method MarkPrepared(key: K)
      requires Valid()
      modifies this
      ensures Valid() && entries == AfterMark(old(entries), key, capacity)
      ensures hits == old(hits) && misses == old(misses)
      ensures evictions - old(evictions) == |MovedToEnd(old(entries), key)| - |entries|
    {
      entries := MovedToEnd(entries, key);
      ghost var full := entries;
      while |entries| > capacity
        invariant |full| - |entries| == evictions - old(evictions) >= 0
        invariant LastOf(entries, capacity) == LastOf(full, capacity)
        invariant hits == old(hits) && misses == old(misses)
      {
        entries := entries[1..];
        evictions := evictions + 1;
      }
    }
  }

  lemma {:induction false} DroppedLength<K>(entries: seq<K>, key: K)
    ensures |Dropped(entries, key)| == if key in entries then |entries| - 1 else |entries|
  {
    if entries != [] && entries[0] != key {
      DroppedLength(entries[1..], key);
    }
  }

  // ------------------------------------------------------------------------------
  // Runs: which keys are resident
  // ------------------------------------------------------------------------------

  datatype Event<K> = Lookup(key: K) | Mark(key: K)

  ghost function Resident<K>(capacity: nat, events: seq<Event<K>>): seq<K> {
    if events == [] then []
    else
      var before, e := Resident(capacity, events[..|events| - 1]), events[|events| - 1];
      match e
      case Lookup(k) => AfterLookup(before, k)
      case Mark(k) => AfterMark(before, k, capacity)
  }

  // The keys touched, in order: every mark, and every lookup that hits.
  ghost function Touches<K>(capacity: nat, events: seq<Event<K>>): seq<K> {
    if events == [] then []
    else
      var rest, e := events[..|events| - 1], events[|events| - 1];
      if e.Mark? || e.key in Resident(capacity, rest) then Touches(capacity, rest) + [e.key]
      else Touches(capacity, rest)
  }

  // The other keys touched since the last touch of k.
  ghost function TouchedSince<K>(touches: seq<K>, k: K): set<K> {
    if touches == [] || touches[|touches| - 1] == k then {}
    else TouchedSince(touches[..|touches| - 1], k) + {touches[|touches| - 1]}
  }

  // Distinct keys by last touch, oldest first.
  ghost function Recency<K>(touches: seq<K>): seq<K> {
    if touches == [] then []
    else MovedToEnd(Recency(touches[..|touches| - 1]), touches[|touches| - 1])
  }

  ghost predicate NoDuplicates<K>(s: seq<K>) {
    s == [] || (s[0] !in s[1..] && NoDuplicates(s[1..]))
  }

  ghost function Elements<K>(s: seq<K>): set<K> {
    set x | x in s
  }

  // What stands after k.
  ghost function After<K>(s: seq<K>, k: K): seq<K> {
    if s == [] then [] else if s[0] == k then s[1..] else After(s[1..], k)
  }

  lemma {:induction false} DroppedAbsent<K>(s: seq<K>, key: K)
    requires key !in s
    ensures Dropped(s, key) == s
  {
    if s != [] {
      DroppedAbsent(s[1..], key);
    }
  }

  lemma {:induction false} DroppedMembers<K>(s: seq<K>, key: K)
    ensures Elements(MovedToEnd(s, key)) == Elements(s) + {key}
    ensures forall x :: x in Dropped(s, key) ==> x in s
    ensures NoDuplicates(s) ==> NoDuplicates(MovedToEnd(s, key)) && NoDuplicates(Dropped(s, key)) && key !in Dropped(s, key)
  {
    if s != [] {
      DroppedMembers(s[1..], key);
      if s[0] == key {
        AppendNew(s[1..], key);
      } else {
        assert Dropped(s, key)[1..] == Dropped(s[1..], key);
        assert MovedToEnd(s, key) == [s[0]] + MovedToEnd(s[1..], key);
        assert MovedToEnd(s, key)[1..] == MovedToEnd(s[1..], key);
        assert Elements(MovedToEnd(s, key)) == {s[0]} + Elements(MovedToEnd(s[1..], key));
        assert forall x :: x in MovedToEnd(s[1..], key) <==> x in Elements(s[1..]) + {key};
      }
    }
  }

  lemma {:induction false} AppendNew<K>(s: seq<K>, key: K)
    ensures key !in s && NoDuplicates(s) ==> NoDuplicates(s + [key])
    ensures Elements(s + [key]) == Elements(s) + {key}
  {
    if s != [] {
      AppendNew(s[1..], key);
      assert (s + [key])[1..] == s[1..] + [key];
    }
  }

  lemma {:induction false} AfterAppend<K>(s: seq<K>, k: K, key: K)
    requires k in s
    ensures After(s + [key], k) == After(s, k) + [key]
  {
    assert (s + [key])[1..] == s[1..] + [key];
    if s[0] != k {
      AfterAppend(s[1..], k, key);
    }
  }

  lemma {:induction false} AfterMembers<K>(s: seq<K>, k: K)
    ensures forall x :: x in After(s, k) ==> x in s
    ensures NoDuplicates(s) ==> NoDuplicates(After(s, k))
  {
    if s != [] && s[0] != k {
      AfterMembers(s[1..], k);
    }
  }

  lemma {:induction false} AfterMoved<K>(s: seq<K>, k: K, key: K)
    requires NoDuplicates(s) && k in s && k != key
    ensures After(MovedToEnd(s, key), k) == MovedToEnd(After(s, k), key)
  {
    if s[0] == key {
      AfterMembers(s[1..], k);
      DroppedAbsent(After(s[1..], k), key);
      AfterAppend(s[1..], k, key);
    } else {
      assert MovedToEnd(s, key)[1..] == MovedToEnd(s[1..], key);
      if s[0] != k {
        AfterMoved(s[1..], k, key);
      }
    }
  }

  // The recency list has each touched key once, and after a key stand the keys touched since.
  lemma {:induction false} RecencyCounts<K>(touches: seq<K>)
    ensures NoDuplicates(Recency(touches)) && Elements(Recency(touches)) == Elements(touches)
    ensures forall k :: k in touches ==> Elements(After(Recency(touches), k)) == TouchedSince(touches, k)
  {
    if touches != [] {
      var rest, key := touches[..|touches| - 1], touches[|touches| - 1];
      RecencyCounts(rest);
      var r := Recency(rest);
      AppendNew(rest, key);
      assert touches == rest + [key];
      DroppedMembers(r, key);
      forall k | k in touches ensures Elements(After(Recency(touches), k)) == TouchedSince(touches, k) {
        if k == key {
          NothingAfterTheLast(Dropped(r, key), key);
        } else {
          assert k in Elements(r);
          AfterMoved(r, k, key);
          DroppedMembers(After(r, k), key);
        }
      }
    }
  }

  lemma {:induction false} NothingAfterTheLast<K>(s: seq<K>, key: K)
    requires key !in s
    ensures After(s + [key], key) == []
  {
    if s != [] {
      assert (s + [key])[1..] == s[1..] + [key];
      NothingAfterTheLast(s[1..], key);
    }
  }

  // Truncating at every step loses nothing that truncating once at the end would keep.
  lemma {:induction false} TouchCommutesWithTruncation<K>(s: seq<K>, key: K, capacity: nat)
    requires NoDuplicates(s) && 1 <= capacity
    ensures LastOf(MovedToEnd(LastOf(s, capacity), key), capacity) == LastOf(MovedToEnd(s, key), capacity)
  {
    if |s| > capacity {
      TouchCommutesWithTruncation(s[1..], key, capacity);
      if s[0] == key {
        DroppedAbsent(s[1..], key);
      } else {
        DroppedLength(s, key);
        assert MovedToEnd(s, key)[1..] == MovedToEnd(s[1..], key);
      }
    }
  }

  lemma {:induction false} LastOfLength<K>(s: seq<K>, capacity: nat)
    ensures |LastOf(s, capacity)| <= capacity
  {
    if |s| > capacity {
      LastOfLength(s[1..], capacity);
    }
  }

  // Residents are the last `capacity` distinct touched keys, in order of last touch.
  lemma {:induction false} ResidentsAreTheMostRecent<K>(capacity: nat, events: seq<Event<K>>)
    requires 1 <= capacity
    ensures Resident(capacity, events) == LastOf(Recency(Touches(capacity, events)), capacity)
  {
    if events != [] {
      var rest, e := events[..|events| - 1], events[|events| - 1];
      ResidentsAreTheMostRecent(capacity, rest);
      var touches := Touches(capacity, rest);
      RecencyCounts(touches);
      TouchCommutesWithTruncation(Recency(touches), e.key, capacity);
      LastOfLength(Recency(touches), capacity);
      DroppedLength(Resident(capacity, rest), e.key);
      assert (touches + [e.key])[..|touches|] == touches;
    }
  }

  lemma {:induction false} CountNoDuplicates<K>(s: seq<K>)
    requires NoDuplicates(s)
    ensures |Elements(s)| == |s|
  {
    if s != [] {
      CountNoDuplicates(s[1..]);
      assert Elements(s) == Elements(s[1..]) + {s[0]};
    } else {
      assert Elements(s) == {};
    }
  }

  lemma {:induction false} KeptWhenFewAfter<K>(s: seq<K>, k: K, capacity: nat)
    requires NoDuplicates(s) && 1 <= capacity
    ensures k in LastOf(s, capacity) <==> k in s && |After(s, k)| < capacity
  {
    if s != [] {
      KeptWhenFewAfter(s[1..], k, capacity);
      AfterShorter(s, k);
    }
  }

  lemma {:induction false} AfterShorter<K>(s: seq<K>, k: K)
    ensures |After(s, k)| <= |s| && (s != [] ==> |After(s, k)| < |s|)
  {
    if s != [] && s[0] != k {
      AfterShorter(s[1..], k);
    }
  }

  // A key is resident exactly when it was touched and fewer than `capacity` distinct
  // other keys have been touched since.
  lemma ResidentExactlyWhenRecent<K>(capacity: nat, events: seq<Event<K>>, k: K)
    requires 1 <= capacity
    ensures k in Resident(capacity, events)
       <==> k in Touches(capacity, events) && |TouchedSince(Touches(capacity, events), k)| < capacity
  {
    ResidentsAreTheMostRecent(capacity, events);
    var touches := Touches(capacity, events);
    RecencyCounts(touches);
    var r := Recency(touches);
    KeptWhenFewAfter(r, k, capacity);
    assert k in r <==> k in Elements(touches);
    AfterMembers(r, k);
    CountNoDuplicates(After(r, k));
  }
}
