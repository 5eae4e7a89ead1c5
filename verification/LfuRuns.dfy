// Whole runs of the LFU cache, on the table that LFUCache refines: what every sequence
// of get/put/exists/sweep/clear keeps, and when the cache is just a map with expiry.
module LfuRuns {
  import opened Options
  import opened LfuCache

  // `now` is the clock reading of a call; a sweep reads the clock once per key, at some
  // moment between its start and its finish.
  datatype Op<!V> =
    | GetOp(key: Key, now: real)
    | PutOp(key: Key, schema: V, ttl: Option<real>, now: real)
    | ExistsOp(key: Key, now: real)
    | SweepOp(reading: Key -> real, start: real, finish: real)
    | ClearOp(now: real)
  {
    function Start(): real {
      if SweepOp? then start else now
    }

    function Finish(): real {
      if SweepOp? then finish else now
    }

    ghost predicate Timely() {
      SweepOp? ==> forall k :: start <= reading(k) <= finish
    }
  }

  ghost function Step<V>(t: Table<V>, op: Op<V>): Table<V> {
    match op
    case GetOp(k, now) => TableGet(t, k, now).0
    case PutOp(k, v, ttl, now) => TablePut(t, k, v, ttl, now)
    case ExistsOp(k, now) => TableExists(t, k, now).0
    case SweepOp(reading, _, _) => TableSweep(t, reading)
    case ClearOp(_) => TableClear(t)
  }

  ghost function Run<V>(capacity: nat, ttl: real, ops: seq<Op<V>>): Table<V> {
    if ops == [] then EmptyTable(capacity, ttl)
    else Step(Run(capacity, ttl, ops[..|ops| - 1]), ops[|ops| - 1])
  }

  // The clock never runs backwards over the run, and stands at most at `now` after it.
  ghost predicate Clocked<V>(ops: seq<Op<V>>, now: real) {
    ops == [] ||
    var op := ops[|ops| - 1];
    op.Timely() && op.Finish() <= now && Clocked(ops[..|ops| - 1], op.Start())
  }

  // The last value put under k since the last clear, with its deadline.
  ghost function LastPut<V>(ttl: real, ops: seq<Op<V>>, k: Key): Option<(V, real)> {
    if ops == [] then None
    else
      var rest := LastPut(ttl, ops[..|ops| - 1], k);
      match ops[|ops| - 1]
      case PutOp(key, v, ttl', now) => if key == k then Some((v, now + ttl'.GetOr(ttl))) else rest
      case ClearOp(_) => None
      case _ => rest
  }

  ghost function KeysPut<V>(ops: seq<Op<V>>): set<Key> {
    if ops == [] then {}
    else KeysPut(ops[..|ops| - 1]) + (if ops[|ops| - 1].PutOp? then {ops[|ops| - 1].key} else {})
  }

  // ------------------------------------------------------------------------------
  // Every run keeps the table in order, so an eviction always has a victim
  // ------------------------------------------------------------------------------

  lemma StepKeepsOk<V>(t: Table<V>, op: Op<V>)
    requires TableOk(t) && DistinctStamps(t)
    ensures TableOk(Step(t, op)) && DistinctStamps(Step(t, op))
    ensures Step(t, op).capacity == t.capacity && Step(t, op).ttl == t.ttl
  {
    match op
    case GetOp(k, _) => TableStepsKeepOk(t, k);
    case ExistsOp(k, _) => TableStepsKeepOk(t, k);
    case SweepOp(reading, _, _) =>
      assert TableSweep(t, reading).entries.Keys <= t.entries.Keys;
      FewerKeys(TableSweep(t, reading).entries, t.entries);
    case ClearOp(_) =>
    case PutOp(k, v, ttl, now) => PutKeepsOk(t, k, v, ttl, now);
  }

  lemma PutKeepsOk<V>(t: Table<V>, k: Key, v: V, ttl: Option<real>, now: real)
    requires TableOk(t) && DistinctStamps(t)
    ensures var t' := TablePut(t, k, v, ttl, now);
            TableOk(t') && DistinctStamps(t') && t'.capacity == t.capacity && t'.ttl == t.ttl
  {
    var expireAt := now + TtlOf(t, ttl);
    if t.capacity > 0 {
      if k in t.entries {
        OverwriteKeepsOk(t, k, v, expireAt);
        TableStepsKeepOk(Overwritten(t, k, v, expireAt), k);
      } else if |t.entries| >= t.capacity {
        RoomAfterEviction(t);
        InsertIntoRoom(Without(t, Victim(t)), k, v, expireAt);
      } else {
        InsertIntoRoom(t, k, v, expireAt);
      }
    }
  }

  lemma RoomAfterEviction<V>(t: Table<V>)
    requires TableOk(t) && DistinctStamps(t) && t.entries != map[]
    ensures var t' := Without(t, Victim(t)); TableOk(t') && DistinctStamps(t') && |t'.entries| < t.capacity
  {
    hide Victim;
    VictimExists(t);
    TableStepsKeepOk(t, Victim(t));
    SmallerWithout(t.entries, Victim(t));
  }

  lemma InsertIntoRoom<V>(t: Table<V>, k: Key, v: V, expireAt: real)
    requires TableOk(t) && DistinctStamps(t) && k !in t.entries && |t.entries| < t.capacity
    ensures var t' := Inserted(t, k, v, expireAt); TableOk(t') && DistinctStamps(t')
  {
    InsertKeepsOk(t, k, v, expireAt);
  }

  lemma FewerKeys<X, Y>(m: map<X, Y>, n: map<X, Y>)
    requires m.Keys <= n.Keys
    ensures |m| <= |n|
  {
    var extra := n.Keys - m.Keys;
    assert n.Keys == m.Keys + extra;
    assert |m.Keys| == |m| && |n.Keys| == |n|;
  }

  lemma {:induction false} RunKeepsOk<V>(capacity: nat, ttl: real, ops: seq<Op<V>>)
    ensures var t := Run(capacity, ttl, ops);
            TableOk(t) && DistinctStamps(t) && t.capacity == capacity && t.ttl == ttl
  {
    if ops != [] {
      RunKeepsOk(capacity, ttl, ops[..|ops| - 1]);
      StepKeepsOk(Run(capacity, ttl, ops[..|ops| - 1]), ops[|ops| - 1]);
    }
  }

  // Inserting into a full cache removes exactly the least entry by (frequency, the
  // moment it entered that frequency), and leaves every other entry alone.
  lemma FullInsertRemovesExactlyTheLeast<V>(capacity: nat, ttl: real, ops: seq<Op<V>>, k: Key, v: V,
                                            ttl': Option<real>, now: real)
    requires var t := Run(capacity, ttl, ops); k !in t.entries && 0 < capacity == |t.entries|
    ensures var t, t' := Run(capacity, ttl, ops), Run(capacity, ttl, ops + [PutOp(k, v, ttl', now)]);
            exists victim :: IsVictim(t, victim)
              && t'.entries.Keys == t.entries.Keys - {victim} + {k}
              && (forall j :: j in t.entries && j != victim ==> t'.entries[j] == t.entries[j])
              && t'.entries[k] == Entry(v, now + ttl'.GetOr(ttl), 1, t.tick)
  {
    RunKeepsOk(capacity, ttl, ops);
    var op := PutOp(k, v, ttl', now);
    assert (ops + [op])[..|ops|] == ops;
    var t := Run(capacity, ttl, ops);
    VictimExists(t);
    assert IsVictim(t, Victim(t));
  }

  // ------------------------------------------------------------------------------
  // What a hit returns
  // ------------------------------------------------------------------------------

  ghost predicate Fresh<V>(t: Table<V>, ttl: real, ops: seq<Op<V>>) {
    forall k :: k in t.entries ==> LastPut(ttl, ops, k) == Some((t.entries[k].schema, t.entries[k].expireAt))
  }

  lemma {:induction false} RunIsFresh<V>(capacity: nat, ttl: real, ops: seq<Op<V>>)
    ensures Fresh(Run(capacity, ttl, ops), ttl, ops)
  {
    if ops != [] {
      var rest := ops[..|ops| - 1];
      RunIsFresh(capacity, ttl, rest);
      RunKeepsOk(capacity, ttl, rest);
      StepIsFresh(Run(capacity, ttl, rest), ttl, ops);
    }
  }

  lemma StepIsFresh<V>(t: Table<V>, ttl: real, ops: seq<Op<V>>)
    requires ops != [] && TableOk(t) && t.ttl == ttl && Fresh(t, ttl, ops[..|ops| - 1])
    ensures Fresh(Step(t, ops[|ops| - 1]), ttl, ops)
  {
    var rest, op := ops[..|ops| - 1], ops[|ops| - 1];
    forall k | k in Step(t, op).entries
      ensures LastPut(ttl, ops, k) == Some((Step(t, op).entries[k].schema, Step(t, op).entries[k].expireAt))
    {
      if op.PutOp? && op.key == k {
        NoRoomNoEntries(t);
      } else {
        SurvivorIsUnchanged(t, op, k);
        assert LastPut(ttl, ops, k) == LastPut(ttl, rest, k);
      }
    }
  }

  lemma NoRoomNoEntries<V>(t: Table<V>)
    requires TableOk(t)
    ensures t.capacity == 0 ==> t.entries == map[]
  {
  }

  // Only a put of k itself brings k in or changes its value and deadline.
  lemma SurvivorIsUnchanged<V>(t: Table<V>, op: Op<V>, k: Key)
    requires k in Step(t, op).entries && !(op.PutOp? && op.key == k)
    ensures k in t.entries && !op.ClearOp?
    ensures Step(t, op).entries[k].schema == t.entries[k].schema
    ensures Step(t, op).entries[k].expireAt == t.entries[k].expireAt
  {
    match op
    case PutOp(_, _, _, _) =>
    case SweepOp(_, _, _) =>
    case _ =>
  }

  // A hit is the value last put under that key and not cleared since, before its deadline.
  lemma HitIsTheLatestPut<V>(capacity: nat, ttl: real, ops: seq<Op<V>>, k: Key, now: real)
    requires TableGet(Run(capacity, ttl, ops), k, now).1.Some?
    ensures exists e :: LastPut(ttl, ops, k) == Some((TableGet(Run(capacity, ttl, ops), k, now).1.value, e)) && now < e
  {
    RunIsFresh(capacity, ttl, ops);
  }

  // ------------------------------------------------------------------------------
  // When nothing has to be evicted
  // ------------------------------------------------------------------------------

  // A put is missing only once its deadline has passed.
  ghost predicate KeepsAll<V>(t: Table<V>, ttl: real, ops: seq<Op<V>>, now: real) {
    && t.entries.Keys <= KeysPut(ops)
    && forall k :: LastPut(ttl, ops, k).Some? ==> k in t.entries || LastPut(ttl, ops, k).value.1 <= now
  }

  lemma {:induction false} RunKeepsAll<V>(capacity: nat, ttl: real, ops: seq<Op<V>>, now: real)
    requires Clocked(ops, now) && 0 < |KeysPut(ops)| <= capacity
    ensures KeepsAll(Run(capacity, ttl, ops), ttl, ops, now)
    decreases |ops|
  {
    var rest, op := ops[..|ops| - 1], ops[|ops| - 1];
    var t := Run(capacity, ttl, rest);
    RunKeepsOk(capacity, ttl, rest);
    assert KeysPut(ops) == KeysPut(rest) + (KeysPut(ops) - KeysPut(rest));
    if KeysPut(rest) != {} {
      RunKeepsAll(capacity, ttl, rest, op.Start());
    } else {
      NothingPut(capacity, ttl, rest);
    }
    RunIsFresh(capacity, ttl, rest);
    StepKeepsAll(t, ttl, ops, now);
  }

  lemma {:induction false} NothingPut<V>(capacity: nat, ttl: real, ops: seq<Op<V>>)
    requires KeysPut(ops) == {}
    ensures Run(capacity, ttl, ops).entries == map[] && forall k :: LastPut(ttl, ops, k) == None
  {
    if ops != [] {
      NothingPut(capacity, ttl, ops[..|ops| - 1]);
    }
  }

  lemma StepKeepsAll<V>(t: Table<V>, ttl: real, ops: seq<Op<V>>, now: real)
    requires ops != [] && Clocked(ops, now) && TableOk(t) && t.ttl == ttl
    requires 0 < |KeysPut(ops)| <= t.capacity
    requires KeepsAll(t, ttl, ops[..|ops| - 1], ops[|ops| - 1].Start()) && Fresh(t, ttl, ops[..|ops| - 1])
    ensures KeepsAll(Step(t, ops[|ops| - 1]), ttl, ops, now)
  {
    var rest, op := ops[..|ops| - 1], ops[|ops| - 1];
    assert op.Start() <= op.Finish() by {
      if op.SweepOp? {
        assert op.start <= op.reading(ContractId("")) <= op.finish;
      }
    }
    assert !op.PutOp? || op.key in t.entries || |t.entries| < t.capacity by {
      if op.PutOp? && op.key !in t.entries {
        RoomForOne(t.entries.Keys, op.key, KeysPut(ops));
        assert |t.entries.Keys| == |t.entries|;
      }
    }
    forall k ensures k in Step(t, op).entries ==> k in KeysPut(ops)
      ensures LastPut(ttl, ops, k).Some? ==> k in Step(t, op).entries || LastPut(ttl, ops, k).value.1 <= now
    {
      NothingIsLostEarly(t, ttl, ops, now, k);
    }
  }

  lemma NothingIsLostEarly<V>(t: Table<V>, ttl: real, ops: seq<Op<V>>, now: real, k: Key)
    requires ops != [] && ops[|ops| - 1].Timely() && t.ttl == ttl && t.capacity > 0
    requires var op := ops[|ops| - 1];
             && op.Start() <= op.Finish() <= now
             && (!op.PutOp? || op.key in t.entries || |t.entries| < t.capacity)
    requires KeepsAll(t, ttl, ops[..|ops| - 1], ops[|ops| - 1].Start()) && Fresh(t, ttl, ops[..|ops| - 1])
    ensures k in Step(t, ops[|ops| - 1]).entries ==> k in KeysPut(ops)
    ensures LastPut(ttl, ops, k).Some? ==>
              k in Step(t, ops[|ops| - 1]).entries || LastPut(ttl, ops, k).value.1 <= now
  {
    var op := ops[|ops| - 1];
    if !(op.PutOp? && op.key == k) {
      if k in Step(t, op).entries {
        SurvivorIsUnchanged(t, op, k);
      } else if k in t.entries && !op.ClearOp? {
        LostByExpiry(t, op, k);
      }
    }
  }

  lemma LostByExpiry<V>(t: Table<V>, op: Op<V>, k: Key)
    requires op.Timely() && !op.ClearOp? && k in t.entries && k !in Step(t, op).entries
    requires op.PutOp? ==> op.key in t.entries || |t.entries| < t.capacity
    ensures t.entries[k].expireAt <= op.Finish()
  {
    match op
    case PutOp(_, _, _, _) =>
    case SweepOp(_, _, _) =>
    case _ =>
  }

  lemma RoomForOne<T>(s: set<T>, x: T, bound: set<T>)
    requires s <= bound && x in bound && x !in s
    ensures |s| < |bound|
  {
    var extra := bound - s;
    assert bound == s + extra && x in extra;
  }

  // While no more than `capacity` distinct keys are ever put, the cache answers exactly
  // as a plain map with deadlines would.
  lemma UncrowdedCacheIsATtlMap<V>(capacity: nat, ttl: real, ops: seq<Op<V>>, k: Key, now: real)
    requires Clocked(ops, now) && |KeysPut(ops)| <= capacity
    ensures TableGet(Run(capacity, ttl, ops), k, now).1
         == match LastPut(ttl, ops, k)
            case Some((v, deadline)) => (if now < deadline then Some(v) else None)
            case None => None
  {
    RunIsFresh(capacity, ttl, ops);
    if KeysPut(ops) == {} {
      NothingPut(capacity, ttl, ops);
    } else {
      RunKeepsAll(capacity, ttl, ops, now);
    }
  }
}
