// lfu_cache.py: an O(1) least-frequently-used cache with a time-to-live.
//
// The cache keeps three linked dictionaries and a minimum frequency that expiry
// leaves stale on purpose. `Table` is the simple thing it has to agree with: one map
// from key to (schema, expiry, frequency, stamp), where the stamp says when the key
// entered its current frequency. Every method is proved against a function on tables.
module LfuCache {
  import opened Options

  datatype Key = ContractId(id: string)

  // ------------------------------------------------------------------------------
  // The specification: one table
  // ------------------------------------------------------------------------------

  datatype Entry<V> = Entry(schema: V, expireAt: real, freq: int, stamp: int)

  datatype Table<V> = Table(capacity: nat, ttl: real, entries: map<Key, Entry<V>>, tick: int)

  function EmptyTable<V>(capacity: nat, ttl: real): Table<V> {
    Table(capacity, ttl, map[], 0)
  }

  // Never over capacity, and every stamp was handed out by the tick counter.
  ghost predicate TableOk<V>(t: Table<V>) {
    && |t.entries| <= t.capacity
    && (forall k {:trigger t.entries[k].stamp} :: k in t.entries ==> t.entries[k].stamp < t.tick)
  }

  // Stamps are handed out once, so no two entries share one.
  ghost predicate DistinctStamps<V>(t: Table<V>) {
    forall j, k {:trigger t.entries[j].stamp, t.entries[k].stamp} ::
      j in t.entries && k in t.entries && j != k ==> t.entries[j].stamp != t.entries[k].stamp
  }

  // The eviction order: lower frequency first, first-in first-out among equals.
  predicate Before<V>(a: Entry<V>, b: Entry<V>) {
    a.freq < b.freq || (a.freq == b.freq && a.stamp < b.stamp)
  }

  ghost predicate IsVictim<V>(t: Table<V>, k: Key) {
    k in t.entries && forall j :: j in t.entries && j != k ==> Before(t.entries[k], t.entries[j])
  }

  function Expired<V>(e: Entry<V>, now: real): bool {
    now >= e.expireAt
  }

  function Without<V>(t: Table<V>, k: Key): Table<V> {
    t.(entries := t.entries - {k})
  }

  function Touched<V>(t: Table<V>, k: Key): Table<V>
    requires k in t.entries
  {
    var e := t.entries[k];
    t.(entries := t.entries[k := e.(freq := e.freq + 1, stamp := t.tick)], tick := t.tick + 1)
  }

  function Overwritten<V>(t: Table<V>, k: Key, v: V, expireAt: real): Table<V>
    requires k in t.entries
  {
    t.(entries := t.entries[k := t.entries[k].(schema := v, expireAt := expireAt)])
  }

  function Replaced<V>(t: Table<V>, k: Key, v: V, expireAt: real): Table<V>
    requires k in t.entries
  {
    Touched(Overwritten(t, k, v, expireAt), k)
  }

  function Inserted<V>(t: Table<V>, k: Key, v: V, expireAt: real): Table<V> {
    t.(entries := t.entries[k := Entry(v, expireAt, 1, t.tick)], tick := t.tick + 1)
  }

  function TableGet<V>(t: Table<V>, k: Key, now: real): (Table<V>, Option<V>) {
    if k !in t.entries then (t, None)
    else if Expired(t.entries[k], now) then (Without(t, k), None)
    else (Touched(t, k), Some(t.entries[k].schema))
  }

  function TableExists<V>(t: Table<V>, k: Key, now: real): (Table<V>, bool) {
    if k !in t.entries then (t, false)
    else if Expired(t.entries[k], now) then (Without(t, k), false)
    else (t, true)
  }

  function TtlOf<V>(t: Table<V>, ttl: Option<real>): real {
    ttl.GetOr(t.ttl)
  }

  // The entry an insert into a full cache removes: VictimExists says there is always one.
  ghost function Victim<V>(t: Table<V>): Key
    requires t.entries != map[]
  {
    if exists k :: IsVictim(t, k) then
      var k :| IsVictim(t, k); k
    else
      var k :| k in t.entries; k
  }

  ghost function TablePut<V>(t: Table<V>, k: Key, v: V, ttl: Option<real>, now: real): Table<V>
  {
    var expireAt := now + TtlOf(t, ttl);
    if t.capacity == 0 then t
    else if k in t.entries then Replaced(t, k, v, expireAt)
    else if |t.entries| >= t.capacity then
      assert t.entries != map[];
      Inserted(Without(t, Victim(t)), k, v, expireAt)
    else Inserted(t, k, v, expireAt)
  }

  // `reading(k)` is what the clock said when the sweep looked at key k.
  function TableSweep<V>(t: Table<V>, reading: Key -> real): Table<V> {
    t.(entries := map k | k in t.entries && !Expired(t.entries[k], reading(k)) :: t.entries[k])
  }

  function TableClear<V>(t: Table<V>): Table<V> {
    t.(entries := map[])
  }

  lemma VictimExists<V>(t: Table<V>)
    requires DistinctStamps(t) && t.entries != map[]
    ensures IsVictim(t, Victim(t))
  {
    var k :| k in t.entries;
    var v := LeastAmong(t, t.entries.Keys, k);
    assert IsVictim(t, v);
  }

  lemma LeastAmong<V>(t: Table<V>, ks: set<Key>, k: Key) returns (v: Key)
    requires DistinctStamps(t) && k in ks && ks <= t.entries.Keys
    ensures v in ks && forall j :: j in ks && j != v ==> Before(t.entries[v], t.entries[j])
    decreases ks
  {
    var rest := ks - {k};
    if rest == {} {
      v := k;
    } else {
      var other :| other in rest;
      var w := LeastAmong(t, rest, other);
      v := if Before(t.entries[k], t.entries[w]) then k else w;
    }
  }

  lemma VictimIsUnique<V>(t: Table<V>, k: Key)
    requires IsVictim(t, k)
    ensures Victim(t) == k
  {
  }

  // ------------------------------------------------------------------------------
  // The linked dictionaries
  // ------------------------------------------------------------------------------

  ghost predicate InStampOrder<V>(bucket: seq<Key>, entries: map<Key, Entry<V>>) {
    && (forall k :: k in bucket ==> k in entries)
    && (forall i, j :: 0 <= i < j < |bucket| ==> entries[bucket[i]].stamp < entries[bucket[j]].stamp)
  }

  // Buckets are non-empty and partition the keys by frequency, each in stamp order;
  // minFreq never exceeds a frequency that has a bucket.
  ghost predicate Bucketed<V>(entries: map<Key, Entry<V>>, buckets: map<int, seq<Key>>, minFreq: int) {
    && (forall f {:trigger buckets[f]} :: f in buckets ==> 1 <= f && minFreq <= f && buckets[f] != [] && InStampOrder(buckets[f], entries))
    && (forall f, k {:trigger k in buckets[f]} :: f in buckets ==> (k in buckets[f] <==> k in entries && entries[k].freq == f))
    && (forall k {:trigger entries[k].freq} :: k in entries ==> entries[k].freq in buckets)
  }

  ghost predicate Agree<V>(entries: map<Key, Entry<V>>, values: map<Key, (V, real)>, freqs: map<Key, int>) {
    && values.Keys == freqs.Keys == entries.Keys
    && (forall k {:trigger values[k]} {:trigger entries[k]} :: k in values ==>
          entries[k].schema == values[k].0 && entries[k].expireAt == values[k].1)
    && (forall k {:trigger freqs[k]} {:trigger entries[k]} :: k in freqs ==> entries[k].freq == freqs[k])
  }

  // The three dictionaries stand for table t.
  ghost predicate Represents<V>(t: Table<V>, values: map<Key, (V, real)>, freqs: map<Key, int>,
                                buckets: map<int, seq<Key>>, minFreq: int)
  {
    && TableOk(t)
    && Agree(t.entries, values, freqs)
    && Bucketed(t.entries, buckets, minFreq)
  }

  // `del bucket[key]` on an ordered dictionary.
  function Removed(bucket: seq<Key>, key: Key): seq<Key> {
    if bucket == [] then []
    else if bucket[0] == key then bucket[1..]
    else [bucket[0]] + Removed(bucket[1..], key)
  }

  function Unlinked(buckets: map<int, seq<Key>>, f: int, key: Key): map<int, seq<Key>>
    requires f in buckets
  {
    var bucket := Removed(buckets[f], key);
    if bucket == [] then buckets - {f} else buckets[f := bucket]
  }

  function Appended(buckets: map<int, seq<Key>>, f: int, key: Key): map<int, seq<Key>> {
    buckets[f := (if f in buckets then buckets[f] else []) + [key]]
  }

  lemma {:induction false} RemovedAt(bucket: seq<Key>, key: Key, i: nat)
    requires i < |bucket| && bucket[i] == key && key !in bucket[..i]
    ensures Removed(bucket, key) == bucket[..i] + bucket[i + 1..]
  {
    if i > 0 {
      assert bucket[0] in bucket[..i];
      assert bucket[1..][..i - 1] == bucket[..i][1..];
      RemovedAt(bucket[1..], key, i - 1);
    }
  }

  lemma RemovedMembers(bucket: seq<Key>, key: Key, i: nat)
    requires i < |bucket| && bucket[i] == key && key !in bucket[..i] && key !in bucket[i + 1..]
    ensures forall k :: k in Removed(bucket, key) <==> k in bucket && k != key
  {
    RemovedAt(bucket, key, i);
    assert bucket == bucket[..i] + [key] + bucket[i + 1..];
  }

  lemma RemovedOrder<V>(bucket: seq<Key>, key: Key, i: nat, entries: map<Key, Entry<V>>)
    requires i < |bucket| && bucket[i] == key && key !in bucket[..i] && key !in bucket[i + 1..]
    requires InStampOrder(bucket, entries)
    ensures InStampOrder(Removed(bucket, key), entries - {key})
  {
    hide Removed;
    RemovedAt(bucket, key, i);
    RemovedMembers(bucket, key, i);
    var r := Removed(bucket, key);
    forall j, k | 0 <= j < k < |r| ensures (entries - {key})[r[j]].stamp < (entries - {key})[r[k]].stamp {
      assert r[j] in r && r[k] in r;
      var j', k' := if j < i then j else j + 1, if k < i then k else k + 1;
      assert r[j] == bucket[j'] && r[k] == bucket[k'] && j' < k';
    }
  }

  lemma BucketWithout<V>(bucket: seq<Key>, key: Key, entries: map<Key, Entry<V>>)
    requires InStampOrder(bucket, entries) && key in bucket
    ensures InStampOrder(Removed(bucket, key), entries - {key})
    ensures forall k :: k in Removed(bucket, key) <==> k in bucket && k != key
  {
    var i :| 0 <= i < |bucket| && bucket[i] == key;
    assert key !in bucket[..i] && key !in bucket[i + 1..];
    RemovedMembers(bucket, key, i);
    RemovedOrder(bucket, key, i, entries);
  }

  lemma UnlinkKeepsBuckets<V>(entries: map<Key, Entry<V>>, buckets: map<int, seq<Key>>, minFreq: int, key: Key)
    requires Bucketed(entries, buckets, minFreq) && key in entries
    ensures Bucketed(entries - {key}, Unlinked(buckets, entries[key].freq, key), minFreq)
  {
    hide Removed;
    var f := entries[key].freq;
    assert key in buckets[f];
    BucketWithout(buckets[f], key, entries);
    var entries', buckets' := entries - {key}, Unlinked(buckets, f, key);
    forall g | g in buckets' && g != f ensures InStampOrder(buckets'[g], entries') {
      assert key !in buckets[g];
    }
    forall k | k in entries' ensures entries'[k].freq in buckets' {
      assert k in buckets[entries[k].freq];
    }
  }

  lemma AppendKeepsBuckets<V>(entries: map<Key, Entry<V>>, buckets: map<int, seq<Key>>, minFreq: int,
                              key: Key, e: Entry<V>, minFreq': int)
    requires Bucketed(entries, buckets, minFreq) && key !in entries
    requires forall k :: k in entries ==> entries[k].stamp < e.stamp
    requires 1 <= e.freq && minFreq' <= e.freq && forall f :: f in buckets ==> minFreq' <= f
    ensures Bucketed(entries[key := e], Appended(buckets, e.freq, key), minFreq')
  {
    var entries', buckets' := entries[key := e], Appended(buckets, e.freq, key);
    forall f | f in buckets' ensures InStampOrder(buckets'[f], entries') {
      if f in buckets {
        assert InStampOrder(buckets[f], entries);
      }
    }
    forall f, k | f in buckets' ensures k in buckets'[f] <==> k in entries' && entries'[k].freq == f {
      assert k in buckets'[f] <==> (f in buckets && k in buckets[f]) || (f == e.freq && k == key);
    }
  }

  lemma IncrementKeepsBuckets<V>(t: Table<V>, buckets: map<int, seq<Key>>, minFreq: int, key: Key,
                                 buckets': map<int, seq<Key>>, minFreq': int)
    requires TableOk(t) && Bucketed(t.entries, buckets, minFreq) && key in t.entries
    requires var f := t.entries[key].freq;
             && buckets' == Unlinked(buckets, f, key)
             && minFreq' == if f !in buckets' && minFreq == f then f + 1 else minFreq
    ensures Bucketed(Touched(t, key).entries, Appended(buckets', t.entries[key].freq + 1, key), minFreq')
  {
    var e := Touched(t, key).entries[key];
    UnlinkKeepsBuckets(t.entries, buckets, minFreq, key);
    AppendKeepsBuckets(t.entries - {key}, buckets', minFreq, key, e, minFreq');
    assert (t.entries - {key})[key := e] == Touched(t, key).entries;
  }

  lemma AgreeWithout<V>(entries: map<Key, Entry<V>>, values: map<Key, (V, real)>, freqs: map<Key, int>, key: Key)
    requires Agree(entries, values, freqs)
    ensures Agree(entries - {key}, values - {key}, freqs - {key})
  {
  }

  lemma AgreeWith<V>(entries: map<Key, Entry<V>>, values: map<Key, (V, real)>, freqs: map<Key, int>,
                     key: Key, e: Entry<V>)
    requires Agree(entries, values, freqs)
    ensures Agree(entries[key := e], values[key := (e.schema, e.expireAt)], freqs[key := e.freq])
  {
  }

  lemma AgreeTouched<V>(t: Table<V>, values: map<Key, (V, real)>, freqs: map<Key, int>, key: Key)
    requires Agree(t.entries, values, freqs) && key in freqs
    ensures key in t.entries && t.entries[key].freq == freqs[key]
    ensures Agree(Touched(t, key).entries, values, freqs[key := freqs[key] + 1])
  {
  }

  lemma LinksOf<V>(t: Table<V>, values: map<Key, (V, real)>, freqs: map<Key, int>,
                   buckets: map<int, seq<Key>>, minFreq: int, key: Key)
    requires Represents(t, values, freqs, buckets, minFreq) && (key in values || key in freqs)
    ensures key in values && key in freqs && freqs[key] in buckets
    ensures key in t.entries && t.entries[key].freq == freqs[key]
    ensures values[key] == (t.entries[key].schema, t.entries[key].expireAt)
  {
  }

  lemma SameKeys<V>(t: Table<V>, values: map<Key, (V, real)>, freqs: map<Key, int>,
                    buckets: map<int, seq<Key>>, minFreq: int)
    requires Represents(t, values, freqs, buckets, minFreq)
    ensures values.Keys == freqs.Keys == t.entries.Keys && |values| == |t.entries| <= t.capacity
  {
    assert |values.Keys| == |values| && |t.entries.Keys| == |t.entries|;
  }

  lemma EvictRepresented<V>(t: Table<V>, values: map<Key, (V, real)>, freqs: map<Key, int>,
                            buckets: map<int, seq<Key>>, minFreq: int, key: Key)
    requires Represents(t, values, freqs, buckets, minFreq) && key in freqs
    ensures freqs[key] in buckets
    ensures Represents(Without(t, key), values - {key}, freqs - {key}, Unlinked(buckets, freqs[key], key), minFreq)
  {
    hide Bucketed, TableOk, Unlinked, Agree;
    LinksOf(t, values, freqs, buckets, minFreq, key);
    UnlinkKeepsBuckets(t.entries, buckets, minFreq, key);
    TableStepsKeepOk(t, key);
    AgreeWithout(t.entries, values, freqs, key);
  }

  lemma IncrementRepresented<V>(t: Table<V>, values: map<Key, (V, real)>, freqs: map<Key, int>,
                                buckets: map<int, seq<Key>>, minFreq: int, key: Key,
                                buckets': map<int, seq<Key>>, minFreq': int)
    requires Represents(t, values, freqs, buckets, minFreq) && key in freqs && freqs[key] in buckets
    requires buckets' == Unlinked(buckets, freqs[key], key)
    requires minFreq' == if freqs[key] !in buckets' && minFreq == freqs[key] then freqs[key] + 1 else minFreq
    ensures key in t.entries
    ensures Represents(Touched(t, key), values, freqs[key := freqs[key] + 1],
                       Appended(buckets', freqs[key] + 1, key), minFreq')
  {
    hide *;
    PartsOf(t, values, freqs, buckets, minFreq);
    AgreeTouched(t, values, freqs, key);
    IncrementKeepsBuckets(t, buckets, minFreq, key, buckets', minFreq');
    TableStepsKeepOk(t, key);
    MadeOf(Touched(t, key), values, freqs[key := freqs[key] + 1], Appended(buckets', freqs[key] + 1, key), minFreq');
  }

  lemma PartsOf<V>(t: Table<V>, values: map<Key, (V, real)>, freqs: map<Key, int>, buckets: map<int, seq<Key>>, minFreq: int)
    requires Represents(t, values, freqs, buckets, minFreq)
    ensures TableOk(t) && Agree(t.entries, values, freqs) && Bucketed(t.entries, buckets, minFreq)
  {
    hide Bucketed, TableOk, Agree;
  }

  lemma MadeOf<V>(t: Table<V>, values: map<Key, (V, real)>, freqs: map<Key, int>, buckets: map<int, seq<Key>>, minFreq: int)
    requires TableOk(t) && Agree(t.entries, values, freqs) && Bucketed(t.entries, buckets, minFreq)
    ensures Represents(t, values, freqs, buckets, minFreq)
  {
    hide Bucketed, TableOk, Agree;
  }

  lemma InsertRepresented<V>(t: Table<V>, values: map<Key, (V, real)>, freqs: map<Key, int>,
                             buckets: map<int, seq<Key>>, minFreq: int, key: Key, v: V, expireAt: real)
    requires Represents(t, values, freqs, buckets, minFreq) && key !in values && |t.entries| < t.capacity
    ensures Represents(Inserted(t, key, v, expireAt), values[key := (v, expireAt)], freqs[key := 1],
                       Appended(buckets, 1, key), 1)
  {
    hide Bucketed, TableOk, Agree, Appended;
    SameKeys(t, values, freqs, buckets, minFreq);
    TicksAhead(t);
    BucketsAtLeastOne(t.entries, buckets, minFreq);
    var e := Entry(v, expireAt, 1, t.tick);
    AppendKeepsBuckets(t.entries, buckets, minFreq, key, e, 1);
    InsertKeepsOk(t, key, v, expireAt);
    AgreeWith(t.entries, values, freqs, key, e);
  }

  lemma TicksAhead<V>(t: Table<V>)
    requires TableOk(t)
    ensures forall k :: k in t.entries ==> t.entries[k].stamp < t.tick
  {
  }

  lemma BucketsAtLeastOne<V>(entries: map<Key, Entry<V>>, buckets: map<int, seq<Key>>, minFreq: int)
    requires Bucketed(entries, buckets, minFreq)
    ensures forall f :: f in buckets ==> 1 <= f
  {
  }

  lemma OverwriteKeepsBuckets<V>(entries: map<Key, Entry<V>>, buckets: map<int, seq<Key>>, minFreq: int,
                                 key: Key, e: Entry<V>)
    requires Bucketed(entries, buckets, minFreq) && key in entries
    requires e.freq == entries[key].freq && e.stamp == entries[key].stamp
    ensures Bucketed(entries[key := e], buckets, minFreq)
  {
    forall f | f in buckets ensures InStampOrder(buckets[f], entries[key := e]) {
      assert InStampOrder(buckets[f], entries);
    }
  }

  lemma OverwriteRepresented<V>(t: Table<V>, values: map<Key, (V, real)>, freqs: map<Key, int>,
                                buckets: map<int, seq<Key>>, minFreq: int, key: Key, v: V, expireAt: real)
    requires Represents(t, values, freqs, buckets, minFreq) && key in values
    ensures key in t.entries
    ensures Represents(Overwritten(t, key, v, expireAt), values[key := (v, expireAt)], freqs, buckets, minFreq)
  {
    hide Bucketed, Agree, TableOk;
    LinksOf(t, values, freqs, buckets, minFreq, key);
    var e := t.entries[key].(schema := v, expireAt := expireAt);
    assert freqs[key := e.freq] == freqs;
    OverwriteKeepsBuckets(t.entries, buckets, minFreq, key, e);
    OverwriteKeepsOk(t, key, v, expireAt);
    AgreeWith(t.entries, values, freqs, key, e);
  }

  ghost function WithoutAll<V>(t: Table<V>, ks: set<Key>): Table<V> {
    t.(entries := t.entries - ks)
  }

  lemma WithoutNone<V>(t: Table<V>, expired: set<Key>)
    ensures WithoutAll(t, expired - expired) == t
    ensures WithoutAll(t, expired - {}) == WithoutAll(t, expired)
  {
    assert t.entries - (expired - expired) == t.entries;
    assert expired - {} == expired;
  }

  lemma WithoutOneMore<V>(t: Table<V>, expired: set<Key>, left: set<Key>, key: Key)
    requires key in expired
    ensures Without(WithoutAll(t, expired - left), key) == WithoutAll(t, expired - (left - {key}))
  {
    assert t.entries - (expired - left) - {key} == t.entries - (expired - (left - {key}));
  }

  lemma KeyStillThere<V>(t: Table<V>, gone: set<Key>, values: map<Key, (V, real)>, freqs: map<Key, int>,
                         buckets: map<int, seq<Key>>, minFreq: int, key: Key)
    requires Represents(WithoutAll(t, gone), values, freqs, buckets, minFreq)
    requires key in t.entries && key !in gone
    ensures key in freqs
  {
  }

  lemma SweepRemoves<V>(t: Table<V>, values: map<Key, (V, real)>, freqs: map<Key, int>,
                        buckets: map<int, seq<Key>>, minFreq: int, reading: Key -> real)
    requires Represents(t, values, freqs, buckets, minFreq)
    ensures values.Keys == t.entries.Keys
    ensures var expired := set k | k in values && reading(k) >= values[k].1;
            WithoutAll(t, expired) == TableSweep(t, reading) &&
            |expired| == |t.entries| - |TableSweep(t, reading).entries|
  {
    hide TableOk, Bucketed;
    var expired := set k | k in values && reading(k) >= values[k].1;
    SameKeys(t, values, freqs, buckets, minFreq);
    assert t.entries - expired == TableSweep(t, reading).entries;
    SizeWithout(t.entries, expired);
  }

  lemma SizeWithout<V>(entries: map<Key, Entry<V>>, ks: set<Key>)
    requires ks <= entries.Keys
    ensures |entries - ks| == |entries| - |ks|
  {
    assert (entries - ks).Keys == entries.Keys - ks;
    assert |(entries - ks).Keys| == |entries - ks| && |entries.Keys| == |entries|;
  }

  // The head of the minFreq bucket is the least entry by (frequency, stamp).
  lemma HeadIsVictim<V>(t: Table<V>, buckets: map<int, seq<Key>>, minFreq: int)
    requires Bucketed(t.entries, buckets, minFreq) && minFreq in buckets
    ensures buckets[minFreq] != [] && IsVictim(t, buckets[minFreq][0])
    ensures t.entries[buckets[minFreq][0]].freq == minFreq
  {
    var bucket := buckets[minFreq];
    assert bucket[0] in bucket;
    forall j | j in t.entries && j != bucket[0] ensures Before(t.entries[bucket[0]], t.entries[j]) {
      if t.entries[j].freq == minFreq {
        assert j in bucket;
        var i :| 0 <= i < |bucket| && bucket[i] == j;
        assert 0 < i;
      }
    }
  }

  lemma HeadOfMinBucket<V>(t: Table<V>, values: map<Key, (V, real)>, freqs: map<Key, int>,
                           buckets: map<int, seq<Key>>, minFreq: int)
    requires Represents(t, values, freqs, buckets, minFreq) && minFreq in buckets
    ensures buckets[minFreq] != [] && IsVictim(t, buckets[minFreq][0])
    ensures buckets[minFreq][0] in freqs && freqs[buckets[minFreq][0]] == minFreq
  {
    HeadIsVictim(t, buckets, minFreq);
  }

  lemma TableStepsKeepOk<V>(t: Table<V>, key: Key)
    requires TableOk(t)
    ensures TableOk(Without(t, key))
    ensures key in t.entries ==> TableOk(Touched(t, key))
  {
    assert (t.entries - {key}).Keys == t.entries.Keys - {key};
    assert |t.entries - {key}| == |(t.entries - {key}).Keys| && |t.entries| == |t.entries.Keys|;
    if key in t.entries {
      GrownWith(t.entries, key, Touched(t, key).entries[key]);
    }
  }

  lemma InsertKeepsOk<V>(t: Table<V>, key: Key, v: V, expireAt: real)
    requires TableOk(t) && key !in t.entries && |t.entries| < t.capacity
    ensures TableOk(Inserted(t, key, v, expireAt))
  {
    GrownWith(t.entries, key, Entry(v, expireAt, 1, t.tick));
  }

  lemma OverwriteKeepsOk<V>(t: Table<V>, key: Key, v: V, expireAt: real)
    requires TableOk(t) && key in t.entries
    ensures TableOk(Overwritten(t, key, v, expireAt))
  {
    GrownWith(t.entries, key, t.entries[key].(schema := v, expireAt := expireAt));
  }

  lemma GrownWith<X, Y>(m: map<X, Y>, k: X, v: Y)
    ensures |m[k := v]| == if k in m then |m| else |m| + 1
  {
    assert m[k := v].Keys == m.Keys + {k};
    assert |m[k := v].Keys| == |m[k := v]| && |m.Keys| == |m|;
  }

  lemma SmallerWithout<X, Y>(m: map<X, Y>, k: X)
    requires k in m
    ensures |m - {k}| < |m|
  {
    assert (m - {k}).Keys == m.Keys - {k};
    assert |(m - {k}).Keys| == |m - {k}| && |m.Keys| == |m|;
  }

  // ------------------------------------------------------------------------------
  // The cache object
  // ------------------------------------------------------------------------------

  class LFUCache<V> {
    const capacity: nat
    const ttlSeconds: real
    var keyToValue: map<Key, (V, real)>
    var keyToFreq: map<Key, int>
    var freqToKeys: map<int, seq<Key>>
    var minFreq: int
    // The table the dictionaries stand for.
    ghost var table: Table<V>

    ghost predicate Valid()
      reads this
    {
      && Represents(table, keyToValue, keyToFreq, freqToKeys, minFreq)
      && table.capacity == capacity && table.ttl == ttlSeconds
    }

    constructor (capacity: nat, ttlSeconds: real)
      ensures Valid() && table == EmptyTable(capacity, ttlSeconds)
    {
      this.capacity, this.ttlSeconds := capacity, ttlSeconds;
      keyToValue, keyToFreq, freqToKeys, minFreq := map[], map[], map[], 0;
      table := EmptyTable(capacity, ttlSeconds);
    }

    method IncrementFreq(key: Key)
      requires Valid() && key in keyToFreq
      modifies this`keyToFreq, this`freqToKeys, this`minFreq, this`table
      ensures Valid() && table == Touched(old(table), key)
    {
      hide Represents, Unlinked, Appended;
      LinksOf(table, keyToValue, keyToFreq, freqToKeys, minFreq, key);
      var freq, least := keyToFreq[key], minFreq;
      var buckets := Unlinked(freqToKeys, freq, key);
      if freq !in buckets && minFreq == freq {
        least := freq + 1;
      }
      IncrementRepresented(table, keyToValue, keyToFreq, freqToKeys, minFreq, key, buckets, least);
      table := Touched(table, key);
      var newFreq := freq + 1;
      keyToFreq := keyToFreq[key := newFreq];
      freqToKeys := Appended(buckets, newFreq, key);
      minFreq := least;
    }

    method EvictKey(key: Key)
      requires Valid() && key in keyToFreq
      modifies this`keyToValue, this`keyToFreq, this`freqToKeys, this`table
      ensures Valid() && table == Without(old(table), key)
    {
      hide Represents, Unlinked;
      EvictRepresented(table, keyToValue, keyToFreq, freqToKeys, minFreq, key);
      freqToKeys := Unlinked(freqToKeys, keyToFreq[key], key);
      keyToFreq, keyToValue := keyToFreq - {key}, keyToValue - {key};
      table := Without(table, key);
    }

    // A minimum that expiry left stale is recomputed from the buckets.
    method ReconcileMinFreq()
      requires Valid() && keyToValue != map[]
      modifies this`minFreq
      ensures Valid() && minFreq in freqToKeys
    {
      if minFreq !in freqToKeys {
        minFreq := Minimum(freqToKeys);
      }
    }

    // Pops the oldest key of the least bucket.
    method EvictLfu()
      requires Valid() && keyToValue != map[]
      modifies this`keyToValue, this`keyToFreq, this`freqToKeys, this`minFreq, this`table
      ensures Valid() && table == Without(old(table), Victim(old(table)))
      ensures |table.entries| < |old(table).entries|
      ensures forall k :: k in keyToValue ==> k in old(keyToValue)
    {
      hide Represents, Unlinked, IsVictim;
      ReconcileMinFreq();
      HeadOfMinBucket(table, keyToValue, keyToFreq, freqToKeys, minFreq);
      var key := freqToKeys[minFreq][0];
      VictimIsUnique(table, key);
      EvictRepresented(table, keyToValue, keyToFreq, freqToKeys, minFreq, key);
      freqToKeys := Unlinked(freqToKeys, minFreq, key);
      SmallerWithout(table.entries, key);
      keyToValue, keyToFreq := keyToValue - {key}, keyToFreq - {key};
      table := Without(table, key);
    }

    method Get(key: Key, now: real) returns (schema: Option<V>)
      requires Valid()
      modifies this
      ensures Valid() && (table, schema) == TableGet(old(table), key, now)
    {
      if key !in keyToValue {
        return None;
      }
      var (stored, expireAt) := keyToValue[key];
      if now >= expireAt {
        EvictKey(key);
        return None;
      }
      IncrementFreq(key);
      schema := Some(stored);
    }

    method Put(key: Key, schema: V, ttl: Option<real>, now: real)
      requires Valid()
      modifies this
      ensures Valid() && table == TablePut(old(table), key, schema, ttl, now)
    {
      hide Represents, Victim, Overwritten, Inserted, Touched;
      SameKeys(table, keyToValue, keyToFreq, freqToKeys, minFreq);
      if capacity == 0 {
        return;
      }
      var expireAt := now + ttl.GetOr(ttlSeconds);
      if key in keyToValue {
        Overwrite(key, schema, expireAt);
        IncrementFreq(key);
        return;
      }
      if |keyToValue| >= capacity {
        EvictLfu();
      }
      Insert(key, schema, expireAt);
    }

    // The new value and expiry of a cached key.
    method Overwrite(key: Key, schema: V, expireAt: real)
      requires Valid() && key in keyToValue
      modifies this`keyToValue, this`table
      ensures Valid() && key in keyToFreq && key in old(table).entries
      ensures table == Overwritten(old(table), key, schema, expireAt)
    {
      hide Represents;
      LinksOf(table, keyToValue, keyToFreq, freqToKeys, minFreq, key);
      OverwriteRepresented(table, keyToValue, keyToFreq, freqToKeys, minFreq, key, schema, expireAt);
      keyToValue := keyToValue[key := (schema, expireAt)];
      table := Overwritten(table, key, schema, expireAt);
    }

    // A key that is not cached yet, once there is room for it.
    method Insert(key: Key, schema: V, expireAt: real)
      requires Valid() && key !in keyToValue && |table.entries| < capacity
      modifies this
      ensures Valid() && table == Inserted(old(table), key, schema, expireAt)
    {
      hide Represents, Appended;
      InsertRepresented(table, keyToValue, keyToFreq, freqToKeys, minFreq, key, schema, expireAt);
      keyToValue := keyToValue[key := (schema, expireAt)];
      keyToFreq := keyToFreq[key := 1];
      freqToKeys := Appended(freqToKeys, 1, key);
      minFreq := 1;
      table := Inserted(table, key, schema, expireAt);
    }

    method Exists(key: Key, now: real) returns (present: bool)
      requires Valid()
      modifies this
      ensures Valid() && (table, present) == TableExists(old(table), key, now)
    {
      if key !in keyToValue {
        return false;
      }
      if now >= keyToValue[key].1 {
        EvictKey(key);
        return false;
      }
      present := true;
    }

    method SweepExpired(reading: Key -> real) returns (evicted: nat)
      requires Valid()
      modifies this
      ensures Valid() && table == TableSweep(old(table), reading)
      ensures evicted == |old(table).entries| - |table.entries|
    {
      hide Represents, Without, TableSweep;
      SweepRemoves(table, keyToValue, keyToFreq, freqToKeys, minFreq, reading);
      var expired := set k | k in keyToValue && reading(k) >= keyToValue[k].1;
      evicted := |expired|;
      var left := expired;
      ghost var t := table;
      WithoutNone(t, expired);
      while left != {}
        invariant Valid() && left <= expired
        invariant table == WithoutAll(t, expired - left)
        decreases left
      {
        var key :| key in left;
        KeyStillThere(t, expired - left, keyToValue, keyToFreq, freqToKeys, minFreq, key);
        EvictKey(key);
        WithoutOneMore(t, expired, left, key);
        left := left - {key};
      }
    }

    method Clear()
      requires Valid()
      modifies this
      ensures Valid() && table == TableClear(old(table))
    {
      keyToValue, keyToFreq, freqToKeys, minFreq := map[], map[], map[], 0;
      table := TableClear(table);
    }

    method Size() returns (n: nat)
      requires Valid()
      ensures n == |table.entries| <= capacity
    {
      SameKeys(table, keyToValue, keyToFreq, freqToKeys, minFreq);
      n := |keyToValue|;
    }
  }

  method Minimum(buckets: map<int, seq<Key>>) returns (least: int)
    requires buckets != map[]
    ensures least in buckets && forall f :: f in buckets ==> least <= f
  {
    var left := buckets.Keys;
    least := Pick(left);
    while left != {}
      invariant left <= buckets.Keys && least in buckets
      invariant forall f :: f in buckets && f !in left ==> least <= f
      decreases left
    {
      var f := Pick(left);
      left := left - {f};
      if f < least {
        least := f;
      }
    }
  }

  method Pick<T(==)>(s: set<T>) returns (x: T)
    requires s != {}
    ensures x in s
  {
    x :| x in s;
  }

  // minFreq is exact whenever its bucket exists, however stale expiry has left it.
  lemma MinFreqExactWhenPresent<V>(c: LFUCache<V>)
    requires c.Valid() && c.minFreq in c.freqToKeys
    ensures exists k :: k in c.keyToFreq && c.keyToFreq[k] == c.minFreq
    ensures forall k :: k in c.keyToFreq ==> c.minFreq <= c.keyToFreq[k]
  {
    var k := c.freqToKeys[c.minFreq][0];
    assert k in c.freqToKeys[c.minFreq];
  }
}
