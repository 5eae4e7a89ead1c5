// What the table of the LFU cache holds, read off the history of operations alone: which
// keys are there, what is stored under them, and how often and when each was used.
module LfuHistory {
  import opened Options
  import opened LfuCache
  import opened LfuRuns

  // The operations that used k since it was last absent: the insert, then every get that
  // found it and every put that overwrote it.
  ghost function Uses<V>(capacity: nat, ttl: real, ops: seq<Op<V>>, k: Key): seq<nat> {
    if ops == [] || k !in Run(capacity, ttl, ops).entries then []
    else
      var n := |ops| - 1;
      Uses(capacity, ttl, ops[..n], k) + (if (ops[n].GetOp? || ops[n].PutOp?) && ops[n].key == k then [n] else [])
  }

  // The entry's frequency counts its uses, and stamps are in the order of last uses.
  ghost predicate CountsUses<V>(capacity: nat, ttl: real, ops: seq<Op<V>>) {
    var t := Run(capacity, ttl, ops);
    && (forall k :: k in t.entries ==> CountedRight(capacity, ttl, ops, k))
    && (forall j, k :: j in t.entries && k in t.entries && t.entries[j].stamp < t.entries[k].stamp ==>
          LastUse(capacity, ttl, ops, j) < LastUse(capacity, ttl, ops, k))
  }

  ghost predicate CountedRight<V>(capacity: nat, ttl: real, ops: seq<Op<V>>, k: Key)
    requires k in Run(capacity, ttl, ops).entries
  {
    var uses := Uses(capacity, ttl, ops, k);
    Run(capacity, ttl, ops).entries[k].freq == |uses| && uses != [] && uses[|uses| - 1] < |ops|
  }

  ghost function LastUse<V>(capacity: nat, ttl: real, ops: seq<Op<V>>, k: Key): int {
    var uses := Uses(capacity, ttl, ops, k);
    if uses == [] then -1 else uses[|uses| - 1]
  }

  // Least by (number of uses, moment of the last one).
  ghost predicate LeastUsed<V>(capacity: nat, ttl: real, ops: seq<Op<V>>, k: Key) {
    forall j :: j in Run(capacity, ttl, ops).entries && j != k ==>
      var mine, its := |Uses(capacity, ttl, ops, k)|, |Uses(capacity, ttl, ops, j)|;
      mine < its || (mine == its && LastUse(capacity, ttl, ops, k) < LastUse(capacity, ttl, ops, j))
  }

  // ------------------------------------------------------------------------------
  // Frequencies are counts of uses
  // ------------------------------------------------------------------------------

  // An operation uses the key it is about if it leaves it there, and no other.
  lemma StepCounts<V>(t: Table<V>, op: Op<V>, k: Key)
    requires TableOk(t) && DistinctStamps(t) && k in Step(t, op).entries
    ensures var e := Step(t, op).entries[k];
            if (op.GetOp? || op.PutOp?) && op.key == k
            then e.freq == (if k in t.entries then t.entries[k].freq else 0) + 1 && e.stamp == t.tick
            else k in t.entries && e.freq == t.entries[k].freq && e.stamp == t.entries[k].stamp < t.tick
  {
    TicksAhead(t);
    match op
    case PutOp(_, _, _, _) =>
      if t.capacity == 0 {
        NoRoomNoEntries(t);
      }
    case _ =>
  }

  lemma {:induction false} FrequencyCountsUses<V>(capacity: nat, ttl: real, ops: seq<Op<V>>)
    ensures CountsUses(capacity, ttl, ops)
  {
    if ops != [] {
      var rest, op := ops[..|ops| - 1], ops[|ops| - 1];
      hide CountedRight, LastUse, Step;
      FrequencyCountsUses(capacity, ttl, rest);
      var t, t' := Run(capacity, ttl, rest), Run(capacity, ttl, ops);
      forall k | k in t'.entries
        ensures CountedRight(capacity, ttl, ops, k)
        ensures if (op.GetOp? || op.PutOp?) && op.key == k
                then LastUse(capacity, ttl, ops, k) == |rest| && t'.entries[k].stamp == t.tick
                else k in t.entries && LastUse(capacity, ttl, ops, k) == LastUse(capacity, ttl, rest, k) < |rest|
                     && t'.entries[k].stamp == t.entries[k].stamp < t.tick
      {
        UsesGrow(capacity, ttl, ops, k);
      }
    }
  }

  lemma UsesGrow<V>(capacity: nat, ttl: real, ops: seq<Op<V>>, k: Key)
    requires ops != [] && k in Run(capacity, ttl, ops).entries
    requires CountsUses(capacity, ttl, ops[..|ops| - 1])
    ensures var rest, op := ops[..|ops| - 1], ops[|ops| - 1];
            var t, t' := Run(capacity, ttl, rest), Run(capacity, ttl, ops);
            && CountedRight(capacity, ttl, ops, k)
            && if (op.GetOp? || op.PutOp?) && op.key == k
               then LastUse(capacity, ttl, ops, k) == |rest| && t'.entries[k].stamp == t.tick
               else k in t.entries && LastUse(capacity, ttl, ops, k) == LastUse(capacity, ttl, rest, k) < |rest|
                    && t'.entries[k].stamp == t.entries[k].stamp < t.tick
  {
    hide Step, TableOk, DistinctStamps;
    var rest, op := ops[..|ops| - 1], ops[|ops| - 1];
    RunKeepsOk(capacity, ttl, rest);
    StepCounts(Run(capacity, ttl, rest), op, k);
    if k in Run(capacity, ttl, rest).entries {
      assert CountedRight(capacity, ttl, rest, k);
    }
  }

  // So the victim of a full insert is the key least used, and among those the one whose last
  // use is longest ago.
  lemma VictimIsLeastUsed<V>(capacity: nat, ttl: real, ops: seq<Op<V>>, k: Key)
    requires k in Run(capacity, ttl, ops).entries
    ensures IsVictim(Run(capacity, ttl, ops), k) <==> LeastUsed(capacity, ttl, ops, k)
  {
    hide Run, Uses, LastUse;
    FrequencyCountsUses(capacity, ttl, ops);
    RunKeepsOk(capacity, ttl, ops);
    var t := Run(capacity, ttl, ops);
    assert CountedRight(capacity, ttl, ops, k);
    forall j | j in t.entries && j != k
      ensures Before(t.entries[k], t.entries[j])
         <==> var mine, its := |Uses(capacity, ttl, ops, k)|, |Uses(capacity, ttl, ops, j)|;
              mine < its || (mine == its && LastUse(capacity, ttl, ops, k) < LastUse(capacity, ttl, ops, j))
    {
      assert CountedRight(capacity, ttl, ops, j);
      assert t.entries[j].stamp < t.entries[k].stamp ==> LastUse(capacity, ttl, ops, j) < LastUse(capacity, ttl, ops, k);
    }
  }

  // ------------------------------------------------------------------------------
  // Which keys are there
  // ------------------------------------------------------------------------------

  // The deadline of what was last put under k.
  ghost function Deadline<V>(ttl: real, ops: seq<Op<V>>, k: Key): real {
    match LastPut(ttl, ops, k)
    case None => 0.0
    case Some((_, deadline)) => deadline
  }

  // The key stays, or comes in, at the next operation.
  ghost predicate Survives<V>(capacity: nat, ttl: real, ops: seq<Op<V>>, op: Op<V>, k: Key) {
    var there, deadline := k in Run(capacity, ttl, ops).entries, Deadline(ttl, ops, k);
    match op
    case GetOp(key, now) => there && (key == k ==> now < deadline)
    case ExistsOp(key, now) => there && (key == k ==> now < deadline)
    case SweepOp(reading, _, _) => there && reading(k) < deadline
    case ClearOp(_) => false
    case PutOp(key, _, _, _) =>
      && capacity > 0
      && (key == k || (there && (Crowded(capacity, ttl, ops, key) ==> !LeastUsed(capacity, ttl, ops, k))))
  }

  // A put of this key has to make room.
  ghost predicate Crowded<V>(capacity: nat, ttl: real, ops: seq<Op<V>>, key: Key) {
    key !in Run(capacity, ttl, ops).entries && |Run(capacity, ttl, ops).entries| == capacity
  }

  // A key is removed by a clear, by a get, exists or sweep that reads its deadline as passed,
  // or as the least used one of a full cache, and by nothing else; a put brings its key in.
  lemma PresentExactlyWhen<V>(capacity: nat, ttl: real, ops: seq<Op<V>>, op: Op<V>, k: Key)
    ensures k in Run(capacity, ttl, ops + [op]).entries <==> Survives(capacity, ttl, ops, op, k)
  {
    hide LeastUsed, IsVictim, TablePut, TableOk, DistinctStamps;
    assert (ops + [op])[..|ops|] == ops;
    var t := Run(capacity, ttl, ops);
    RunKeepsOk(capacity, ttl, ops);
    RunIsFresh(capacity, ttl, ops);
    match op
    case PutOp(key, v, ttl', now) =>
      PutKeeps(t, key, v, ttl', now, k);
      if k in t.entries {
        VictimIsLeastUsed(capacity, ttl, ops, k);
      }
    case _ =>
  }

  lemma PutKeeps<V>(t: Table<V>, key: Key, v: V, ttl: Option<real>, now: real, k: Key)
    requires TableOk(t) && DistinctStamps(t)
    ensures |t.entries| <= t.capacity
    ensures k in TablePut(t, key, v, ttl, now).entries
       <==> t.capacity > 0
            && (key == k || (k in t.entries && (key !in t.entries && |t.entries| == t.capacity ==> !IsVictim(t, k))))
  {
    hide IsVictim, DistinctStamps, Victim;
    if t.capacity > 0 && key !in t.entries && |t.entries| >= t.capacity {
      VictimExists(t);
      if k in t.entries {
        OneVictim(t, k);
      }
    } else if t.capacity == 0 {
      NoRoomNoEntries(t);
    }
  }

  lemma OneVictim<V>(t: Table<V>, k: Key)
    requires t.entries != map[] && IsVictim(t, Victim(t))
    ensures IsVictim(t, k) <==> k == Victim(t)
  {
    hide Victim;
  }

  // A get answers what was last put under the key, exactly while the key is there and its
  // deadline lies ahead; an exists says whether it would.
  lemma AnswersAreTheLatestPut<V>(capacity: nat, ttl: real, ops: seq<Op<V>>, k: Key, now: real)
    ensures var t := Run(capacity, ttl, ops);
            var live := k in t.entries && now < Deadline(ttl, ops, k);
            && (TableExists(t, k, now).1 <==> live)
            && (TableGet(t, k, now).1.Some? <==> live)
            && (live ==> LastPut(ttl, ops, k) == Some((TableGet(t, k, now).1.value, Deadline(ttl, ops, k))))
  {
    RunIsFresh(capacity, ttl, ops);
  }
}
