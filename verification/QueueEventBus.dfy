// The methods of QueueEventBus, each an execution of labels of the EventBus protocol: the
// object always stands in a state some run reaches, so what every run keeps holds of it.
module QueueEventBus {
  import opened Options
  import opened EventBus

  class Bus {
    const cfg: Config
    const network: nat -> bool    // whether the n-th post succeeds
    const breaker: nat -> bool    // what the breaker answers to the n-th question
    var queue: seq<Event>
    var droppedTotal: nat
    var closed: bool
    var drainRequested: bool
    var finalAttempts: Option<int>
    var posts: nat
    var asked: nat
    ghost var trace: seq<Label>
    ghost var s: State

    ghost predicate Valid()
      reads this
    {
      && s == Run(cfg, trace)
      && queue == s.queue && droppedTotal == s.droppedTotal && closed == s.closed
      && drainRequested == s.drainRequested && finalAttempts == s.finalAttempts
    }

    constructor (cfg: Config, network: nat -> bool, breaker: nat -> bool)
      ensures Valid() && trace == [] && this.cfg == cfg
    {
      this.cfg, this.network, this.breaker := cfg, network, breaker;
      queue, droppedTotal, closed, drainRequested, finalAttempts := [], 0, false, false, None;
      posts, asked := 0, 0;
      trace, s := [], Initial();
    }

    // Whatever has been called so far, the conservation law holds of the object's counters.
    ghost method Account()
      requires Valid()
      ensures s.published == s.shipped + s.observed + droppedTotal + s.lost + |queue| + |s.hand| + s.uncounted
    {
      TelemetryIsConserved(cfg, trace);
    }

    ghost method Record(l: Label)
      requires s == Run(cfg, trace)
      modifies this`trace, this`s
      ensures s == Run(cfg, trace) == Step(cfg, old(s), l) && trace == old(trace) + [l]
    {
      RunStep(cfg, trace, l);
      trace := trace + [l];
      s := Step(cfg, s, l);
    }

    method Publish(event: Event)
      requires Valid() && event == s.published
      modifies this
      ensures Valid() && old(trace) <= trace && s.published == old(s.published) + 1
      ensures !old(closed) && !Full(cfg, old(queue)) ==>
                queue == old(queue) + [event] && droppedTotal == old(droppedTotal)
      ensures old(closed) || Full(cfg, old(queue)) ==> queue == old(queue) && droppedTotal == old(droppedTotal) + 1
    {
      hide Run;
      var accepting := !closed;
      var full := Full(cfg, queue);
      Record(EventBus.Publish);
      if accepting && !full {
        queue := queue + [event];
        return;
      }
      Record(CountDrop);
      droppedTotal := droppedTotal + 1;
    }
  
    // _stop, without the thread plumbing.
    method StopBus(drain: bool, maxAttempts: Option<int>)
      requires Valid()
      modifies this
      ensures Valid() && trace == old(trace) + [Stop(drain, maxAttempts)] && closed
      ensures queue == old(queue) && droppedTotal == old(droppedTotal)
      ensures drainRequested == (old(drainRequested) || drain)
    {
      hide Run;
      Record(Stop(drain, maxAttempts));
      closed := true;
      drainRequested := drainRequested || drain;
      if maxAttempts.Some? {
        if finalAttempts.None? || maxAttempts.value < finalAttempts.value {
          finalAttempts := maxAttempts;
        }
      }
    }

    // One batch, greedily: _collect_batch when regular, the inner loop of
    // _flush_remaining when final.
    method CollectBatch(mode: Mode) returns (batch: seq<Event>)
      requires Valid() && s.pc == Gathering(mode) && s.hand == []
      modifies this
      ensures Valid() && old(trace) <= trace && droppedTotal == old(droppedTotal) && closed == old(closed)
      ensures old(queue) == batch + queue
      ensures s == old(s).(hand := batch, queue := queue,
                           pc := if batch != [] then Handing(mode) else if mode.Regular? then Polling else Stopped)
      ensures batch == [] <==> old(queue) == [] || (mode.Final? && cfg.batchSize < 1)
      ensures |batch| <= Largest(cfg) && (|batch| < cfg.batchSize ==> queue == [])
    {
      hide Run, Step;
      batch := [];
      ghost var all, t := queue, s;
      while (|batch| < cfg.batchSize || (mode.Regular? && batch == [])) && queue != []
        invariant Valid() && old(trace) <= trace && droppedTotal == old(droppedTotal) && closed == old(closed)
        invariant s == t.(hand := batch, queue := queue) && batch + queue == all
        invariant batch != [] ==> mode.Regular? || cfg.batchSize >= 1
        invariant |batch| <= Largest(cfg)
        decreases |queue|
      {
        assert batch + queue == batch + [queue[0]] + queue[1..];
        batch, queue := batch + [queue[0]], queue[1..];
        Gathered();
      }
      Gathered();
    }

    ghost method Gathered()
      requires s == Run(cfg, trace) && s.pc.Gathering?
      modifies this`trace, this`s
      ensures s == Run(cfg, trace) == AfterGather(cfg, old(s)) && trace == old(trace) + [Gather]
    {
      GatherStep(cfg, s);
      Record(Gather);
    }

    // _ship_locked: the batch is posted until it succeeds, the attempts run out or stop
    // is signalled, and in every case it is accounted for exactly once.
    method ShipLocked(batch: seq<Event>, mode: Mode) returns (ok: bool)
      requires Valid() && s.pc == Handing(mode) && s.hand == batch
      modifies this
      ensures Valid() && old(trace) <= trace && queue == old(queue) && closed == old(closed)
      ensures s.hand == [] && s.pc == (if mode.Regular? then Polling else Gathering(mode))
      ensures s.handed == old(s.handed) + [batch]
      ensures s.shipped + s.observed == old(s.shipped) + old(s.observed) + (if ok then |batch| else 0)
      ensures droppedTotal + s.lost == old(droppedTotal) + old(s.lost) + (if ok then 0 else |batch|)
      ensures asked == old(asked) + (if cfg.hasPlane && cfg.hasBreaker then 1 else 0)
      ensures if !cfg.hasPlane then ok && posts == old(posts)
              else if cfg.hasBreaker && !breaker(old(asked)) then !ok && posts == old(posts)
              else Settled(old(posts), posts, Budget(mode), closed, ok)
    {
      hide Run, AfterGather, AfterPost, AfterStop, Settled;
      if !cfg.hasPlane {
        Record(Hand(true));
        return true;
      }
      var allowed := true;
      if cfg.hasBreaker {
        allowed := breaker(asked);
        asked := asked + 1;
      }
      ok := ShipToPlane(batch, mode, allowed);
    }

    // A batch for the configured control plane: dropped at once when the breaker is open.
    method ShipToPlane(batch: seq<Event>, mode: Mode, allowed: bool) returns (ok: bool)
      requires Valid() && s.pc == Handing(mode) && s.hand == batch
      requires cfg.hasPlane && (!cfg.hasBreaker ==> allowed)
      modifies this
      ensures Valid() && old(trace) <= trace && queue == old(queue) && closed == old(closed)
      ensures s.hand == [] && s.pc == (if mode.Regular? then Polling else Gathering(mode))
      ensures s.handed == old(s.handed) + [batch] && s.observed == old(s.observed)
      ensures s.shipped == old(s.shipped) + (if ok then |batch| else 0)
      ensures droppedTotal + s.lost == old(droppedTotal) + old(s.lost) + (if ok then 0 else |batch|)
      ensures asked == old(asked)
      ensures if allowed then Settled(old(posts), posts, Budget(mode), closed, ok) else !ok && posts == old(posts)
    {
      hide Run, AfterGather, AfterPost, AfterStop, Settled;
      Record(Hand(allowed));
      if !allowed {
        droppedTotal := droppedTotal + |batch|;
        return false;
      }
      ok := PostBatch(batch, mode, Budget(mode));
    }

    function Budget(mode: Mode): int {
      if mode.Final? && mode.maxAttempts.Some? then mode.maxAttempts.value else cfg.maxRetries
    }

    // How the posts of a batch went, by the answers of the network from the first of them on:
    // all but the last failed, the last decided, and a failure was final only with the attempts
    // used up or the bus stopped. On an open bus the batch is shipped exactly when some answer
    // within its attempts is good.
    ghost predicate Settled(start: nat, end: nat, attempts: int, stopped: bool, ok: bool) {
      if attempts < 1 then !ok && end == start
      else
        && start < end <= start + attempts
        && (forall i :: start <= i < end - 1 ==> !network(i)) && ok == network(end - 1)
        && (stopped ==> end == start + 1)
        && (!stopped && !ok ==> end == start + attempts)
        && (!stopped ==> (ok <==> exists i :: start <= i < start + attempts && network(i)))
    }

    // The retry loop.
    method PostBatch(batch: seq<Event>, mode: Mode, attempts: int) returns (ok: bool)
      requires Valid()
      requires if attempts < 1 then s.hand == [] && s.pc == (if mode.Regular? then Polling else Gathering(mode))
               else s.hand == batch && s.pc == Posting(mode, attempts, 1)
      modifies this
      ensures Valid() && old(trace) <= trace && queue == old(queue) && closed == old(closed)
      ensures s.hand == [] && s.pc == (if mode.Regular? then Polling else Gathering(mode))
      ensures s.handed == old(s.handed) && s.observed == old(s.observed) && s.lost == old(s.lost)
      ensures attempts < 1 ==> !ok && s.shipped == old(s.shipped) && droppedTotal == old(droppedTotal)
      ensures attempts >= 1 ==> s.shipped == old(s.shipped) + (if ok then |batch| else 0)
      ensures attempts >= 1 ==> droppedTotal == old(droppedTotal) + (if ok then 0 else |batch|)
      ensures asked == old(asked) && Settled(old(posts), posts, attempts, closed, ok)
    {
      hide Run, Step;
      var attempt := 1;
      while attempt <= attempts
        invariant Valid() && old(trace) <= trace && queue == old(queue) && closed == old(closed)
        invariant 1 <= attempt && posts == old(posts) + attempt - 1 && (closed ==> attempt == 1)
        invariant asked == old(asked) && forall i :: old(posts) <= i < posts ==> !network(i)
        invariant attempts >= 1 ==> attempt <= attempts && s.hand == batch && s.pc == Posting(mode, attempts, attempt)
        invariant attempts < 1 ==> s == old(s) && attempt == 1
        invariant s.handed == old(s.handed) && s.observed == old(s.observed) && s.lost == old(s.lost)
        invariant s.shipped == old(s.shipped) && droppedTotal == old(droppedTotal)
        decreases attempts - attempt
      {
        var settled := false;
        settled, ok := PostOnce(batch, mode, attempts, attempt);
        if settled {
          return;
        }
        attempt := attempt + 1;
      }
      ok := false;
    }

    // One turn of the retry loop: settled when the batch is shipped or dropped.
    method PostOnce(batch: seq<Event>, mode: Mode, attempts: int, attempt: int) returns (settled: bool, ok: bool)
      requires Valid() && 1 <= attempt <= attempts && s.hand == batch && s.pc == Posting(mode, attempts, attempt)
      modifies this
      ensures Valid() && old(trace) <= trace && queue == old(queue) && closed == old(closed)
      ensures posts == old(posts) + 1 && asked == old(asked) && ok == network(old(posts))
      ensures ok ==> settled
      ensures !ok && settled ==> closed || attempt == attempts
      ensures s.handed == old(s.handed) && s.observed == old(s.observed) && s.lost == old(s.lost)
      ensures s.shipped == old(s.shipped) + (if settled && ok then |batch| else 0)
      ensures droppedTotal == old(droppedTotal) + (if settled && !ok then |batch| else 0)
      ensures if settled then s.hand == [] && s.pc == (if mode.Regular? then Polling else Gathering(mode))
              else !closed && attempt < attempts && s.hand == batch && s.pc == Posting(mode, attempts, attempt + 1)
    {
      hide Run, Step;
      BeginStep(cfg, s);
      Record(BeginPost);
      ok := network(posts);
      posts := posts + 1;
      if ok {
        EndStep(cfg, s, true);
        Record(EndPost(true));
        settled := true;
      } else {
        settled := PostFailed(batch, mode, attempts, attempt);
      }
    }

    // A post that failed: the batch is dropped after the last attempt or a stop.
    method PostFailed(batch: seq<Event>, mode: Mode, attempts: int, attempt: int) returns (settled: bool)
      requires Valid() && 1 <= attempt <= attempts && s.hand == batch && s.pc == InPost(mode, attempts, attempt)
      modifies this
      ensures Valid() && old(trace) <= trace && queue == old(queue) && closed == old(closed)
      ensures posts == old(posts) && asked == old(asked) && (settled ==> closed || attempt == attempts)
      ensures s.handed == old(s.handed) && s.observed == old(s.observed) && s.lost == old(s.lost)
      ensures s.shipped == old(s.shipped) && droppedTotal == old(droppedTotal) + (if settled then |batch| else 0)
      ensures if settled then s.hand == [] && s.pc == (if mode.Regular? then Polling else Gathering(mode))
              else !closed && attempt < attempts && s.hand == batch && s.pc == Posting(mode, attempts, attempt + 1)
    {
      hide Run, Step;
      EndStep(cfg, s, false);
      Record(EndPost(false));
      if attempt >= attempts {
        droppedTotal := droppedTotal + |batch|;
        return true;
      }
      WaitStep(cfg, s);
      Record(EndWait);
      settled := closed;
      if closed {
        droppedTotal := droppedTotal + |batch|;
      }
    }

    // _flush_remaining on a closed bus: the whole queue is handed over in order.
    method FlushRemaining(maxAttempts: Option<int>)
      requires Valid() && closed && s.pc == Gathering(Final(maxAttempts)) && s.hand == []
      modifies this
      ensures Valid() && old(trace) <= trace && s.pc == Stopped
      ensures cfg.batchSize >= 1 ==> queue == [] && Concat(s.handed) == Concat(old(s.handed)) + old(queue)
      ensures cfg.batchSize < 1 ==> queue == old(queue) && s.handed == old(s.handed)
    {
      hide Run, Concat, Step;
      while true
        invariant Valid() && closed && old(trace) <= trace
        invariant s.pc == Gathering(Final(maxAttempts)) && s.hand == []
        invariant Concat(s.handed) + queue == Concat(old(s.handed)) + old(queue)
        invariant cfg.batchSize < 1 ==> queue == old(queue) && s.handed == old(s.handed)
        decreases |queue|
      {
        ghost var before, rest := s.handed, queue;
        var batch := CollectBatch(Final(maxAttempts));
        if batch == [] {
          return;
        }
        var ok := ShipLocked(batch, Final(maxAttempts));
        ConcatOneMore(before, batch);
        assert Concat(before) + rest == Concat(before) + batch + queue;
      }
    }

    // The end of _drain_loop, and _finish_without_worker: read the flags, then flush if a
    // drain was asked for.
    method FinishWorker()
      requires Valid() && closed && s.pc == ReadingFlags
      modifies this
      ensures Valid() && s.pc == Stopped
      ensures old(drainRequested) && cfg.batchSize >= 1 ==>
                queue == [] && s.published == s.shipped + s.observed + droppedTotal + s.lost + s.uncounted
    {
      hide Run, Concat;
      var drain, maxAttempts := drainRequested, finalAttempts;
      TelemetryIsConserved(cfg, trace);
      Record(ReadFlags);
      if drain {
        FlushRemaining(maxAttempts);
        TelemetryIsConserved(cfg, trace);
      }
    }
  }

  lemma BeginStep(cfg: Config, s: State)
    requires s.pc.Posting?
    ensures var t := Step(cfg, s, BeginPost);
            && t.pc == InPost(s.pc.mode, s.pc.budget, s.pc.attempt)
            && t == s.(pc := t.pc, late := t.late, worstLate := t.worstLate)
  {
  }

  lemma EndStep(cfg: Config, s: State, ok: bool)
    requires s.pc.InPost?
    ensures Step(cfg, s, EndPost(ok)) == AfterPost(s, ok)
  {
  }

  lemma WaitStep(cfg: Config, s: State)
    requires s.pc.Backoff?
    ensures Step(cfg, s, EndWait)
         == if s.closed then DropHand(s, s.pc.mode) else s.(pc := Posting(s.pc.mode, s.pc.budget, s.pc.attempt + 1))
  {
  }

  lemma GatherStep(cfg: Config, s: State)
    requires s.pc.Gathering?
    ensures Step(cfg, s, Gather) == AfterGather(cfg, s)
  {
  }
}
