// queue_event_bus.py: producers enqueue without blocking, one worker ships batches, and
// stop() closes the bus and may ask for a final drain. Every atomic section of the
// producers, the worker and stop() is a label; a run is any interleaving of them.
module EventBus {
  import opened Options

  // Publish calls are numbered in the order they take the lifecycle lock.
  type Event = nat

  datatype Config = Config(maxQueue: int, batchSize: int, maxRetries: int, hasPlane: bool, hasBreaker: bool)

  // Regular draining, or the final flush with the attempt budget it read.
  datatype Mode = Regular | Final(maxAttempts: Option<int>)

  datatype Pc =
    | NotStarted
    | Polling                                    // top of the drain loop
    | Gathering(mode: Mode)                      // filling a batch from the queue
    | Handing(mode: Mode)                        // a batch is complete, shipping begins
    | Posting(mode: Mode, budget: int, attempt: int)
    | InPost(mode: Mode, budget: int, attempt: int)
    | Backoff(mode: Mode, budget: int, attempt: int)
    | ReadingFlags
    | Stopped

  datatype State = State(
    queue: seq<Event>,
    droppedTotal: nat,
    closed: bool,
    drainRequested: bool,
    finalAttempts: Option<int>,
    pc: Pc,
    hand: seq<Event>,            // the batch the worker holds
    // history
    published: nat,              // publish calls that have passed the lifecycle lock
    uncounted: nat,              // producers that lost their event and have not counted it yet
    accepted: seq<Event>,
    handed: seq<seq<Event>>,     // batches given to shipping
    shipped: nat,                // events in batches that were posted successfully
    observed: nat,               // events drained with no control plane configured
    lost: nat,                   // events of batches that were neither shipped nor counted
    late: nat,                   // posts of the current batch begun after stop
    worstLate: nat,              // the largest `late` of any batch
    drainSeen: bool)             // the worker read the drain flag as set

  datatype Label =
    | Publish
    | CountDrop                                  // the second section of a publish that lost its event
    | Start
    | Stop(drain: bool, maxAttempts: Option<int>)
    | Poll
    | Gather
    | Hand(breakerAllows: bool)
    | BeginPost
    | EndPost(ok: bool)
    | EndWait
    | ReadFlags

  function Initial(): State {
    State([], 0, false, false, None, NotStarted, [], 0, 0, [], [], 0, 0, 0, 0, 0, false)
  }

  predicate Full(cfg: Config, queue: seq<Event>) {
    0 < cfg.maxQueue <= |queue|
  }

  predicate Enabled(s: State, l: Label) {
    match l
    case Publish => true
    case CountDrop => s.uncounted > 0
    case Start => s.pc == NotStarted && !s.closed
    case Stop(_, _) => true
    case Poll => s.pc == Polling
    case Gather => s.pc.Gathering?
    case Hand(_) => s.pc.Handing?
    case BeginPost => s.pc.Posting?
    case EndPost(_) => s.pc.InPost?
    case EndWait => s.pc.Backoff?
    case ReadFlags => s.pc == ReadingFlags
  }

  predicate WorkerLabel(l: Label) {
    l.Poll? || l.Gather? || l.Hand? || l.BeginPost? || l.EndPost? || l.EndWait? || l.ReadFlags?
  }

  // The worker is collecting or shipping.
  predicate Busy(s: State) {
    s.pc.Gathering? || s.pc.Handing? || s.pc.Posting? || s.pc.InPost? || s.pc.Backoff?
  }

  // Back to the loop that called _ship.
  function Back(s: State, mode: Mode): State {
    s.(hand := [], late := 0, pc := match mode case Regular => Polling case Final(_) => Gathering(mode))
  }

  function DropHand(s: State, mode: Mode): State {
    Back(s.(droppedTotal := s.droppedTotal + |s.hand|), mode)
  }

  function AfterStop(s: State, drain: bool, maxAttempts: Option<int>): State {
    s.(closed := true,
       drainRequested := s.drainRequested || drain,
       finalAttempts := match maxAttempts
                        case None => s.finalAttempts
                        case Some(m) => (match s.finalAttempts
                                         case None => Some(m)
                                         case Some(n) => Some(if n < m then n else m)),
       pc := if s.pc == NotStarted then ReadingFlags else s.pc)
  }

  function AfterGather(cfg: Config, s: State): State
    requires s.pc.Gathering?
  {
    var wants := |s.hand| < cfg.batchSize || (s.pc.mode.Regular? && s.hand == []);
    if wants && s.queue != [] then s.(hand := s.hand + [s.queue[0]], queue := s.queue[1..])
    else if s.hand != [] then s.(pc := Handing(s.pc.mode))
    else if s.pc.mode.Regular? then s.(pc := Polling)
    else s.(pc := Stopped)
  }

  function AfterHand(cfg: Config, s: State, breakerAllows: bool): State
    requires s.pc.Handing?
  {
    var t := s.(handed := s.handed + [s.hand]);
    var mode := s.pc.mode;
    var budget := if mode.Final? && mode.maxAttempts.Some? then mode.maxAttempts.value else cfg.maxRetries;
    if !cfg.hasPlane then Back(t.(observed := s.observed + |s.hand|), mode)
    else if cfg.hasBreaker && !breakerAllows then DropHand(t, mode)
    else if budget < 1 then Back(t.(lost := s.lost + |s.hand|), mode)
    else t.(pc := Posting(mode, budget, 1))
  }

  function AfterPost(s: State, ok: bool): State
    requires s.pc.InPost?
  {
    if ok then Back(s.(shipped := s.shipped + |s.hand|), s.pc.mode)
    else if s.pc.attempt >= s.pc.budget then DropHand(s, s.pc.mode)
    else s.(pc := Backoff(s.pc.mode, s.pc.budget, s.pc.attempt))
  }

  function Step(cfg: Config, s: State, l: Label): State {
    if !Enabled(s, l) then s
    else
      match l
      case Publish =>
        if !s.closed && !Full(cfg, s.queue) then
          s.(published := s.published + 1, queue := s.queue + [s.published], accepted := s.accepted + [s.published])
        else s.(published := s.published + 1, uncounted := s.uncounted + 1)
      case CountDrop => s.(uncounted := s.uncounted - 1, droppedTotal := s.droppedTotal + 1)
      case Start => s.(pc := Polling)
      case Stop(drain, maxAttempts) => AfterStop(s, drain, maxAttempts)
      case Poll => s.(pc := if s.closed then ReadingFlags else Gathering(Regular))
      case Gather => AfterGather(cfg, s)
      case Hand(breakerAllows) => AfterHand(cfg, s, breakerAllows)
      case BeginPost =>
        var late := if s.closed then s.late + 1 else s.late;
        s.(pc := InPost(s.pc.mode, s.pc.budget, s.pc.attempt),
           late := late,
           worstLate := if late > s.worstLate then late else s.worstLate)
      case EndPost(ok) => AfterPost(s, ok)
      case EndWait =>
        if s.closed then DropHand(s, s.pc.mode) else s.(pc := Posting(s.pc.mode, s.pc.budget, s.pc.attempt + 1))
      case ReadFlags =>
        if s.drainRequested then s.(pc := Gathering(Final(s.finalAttempts)), drainSeen := true)
        else s.(pc := Stopped)
  }

  function Run(cfg: Config, labels: seq<Label>): State {
    if labels == [] then Initial() else Step(cfg, Run(cfg, labels[..|labels| - 1]), labels[|labels| - 1])
  }

  // ------------------------------------------------------------------------------
  // Every event is accounted for
  // ------------------------------------------------------------------------------

  ghost predicate Conserved(s: State) {
    && s.published == s.shipped + s.observed + s.droppedTotal + s.lost + |s.queue| + |s.hand| + s.uncounted
    && (s.pc.NotStarted? || s.pc.Polling? || s.pc.ReadingFlags? || s.pc.Stopped? ==> s.hand == [])
  }

  lemma StepConserves(cfg: Config, s: State, l: Label)
    requires Conserved(s)
    ensures Conserved(Step(cfg, s, l))
  {
    hide AfterHand, AfterGather, AfterPost;
    if Enabled(s, l) {
      match l
      case Hand(breakerAllows) => HandConserves(cfg, s, breakerAllows);
      case Gather => GatherConserves(cfg, s);
      case EndPost(ok) => PostConserves(s, ok);
      case _ =>
    }
  }

  lemma HandConserves(cfg: Config, s: State, breakerAllows: bool)
    requires Conserved(s) && s.pc.Handing?
    ensures Conserved(AfterHand(cfg, s, breakerAllows))
  {
  }

  lemma GatherConserves(cfg: Config, s: State)
    requires Conserved(s) && s.pc.Gathering?
    ensures Conserved(AfterGather(cfg, s))
  {
  }

  lemma PostConserves(s: State, ok: bool)
    requires Conserved(s) && s.pc.InPost?
    ensures Conserved(AfterPost(s, ok))
  {
  }

  // In every reachable state each publish call is in exactly one place: shipped, observed
  // (no control plane), dropped and counted, lost uncounted, still queued, in the worker's
  // hand, or between losing its event and counting it.
  lemma {:induction false} TelemetryIsConserved(cfg: Config, labels: seq<Label>)
    ensures Conserved(Run(cfg, labels))
  {
    if labels != [] {
      TelemetryIsConserved(cfg, labels[..|labels| - 1]);
      StepConserves(cfg, Run(cfg, labels[..|labels| - 1]), labels[|labels| - 1]);
    }
  }

  // Attempt budgets a caller of stop may ask for; the exit hook asks for 1.
  ghost predicate PositiveBudgets(labels: seq<Label>) {
    forall i :: 0 <= i < |labels| && labels[i].Stop? && labels[i].maxAttempts.Some? ==> labels[i].maxAttempts.value >= 1
  }

  ghost predicate BudgetsOk(s: State) {
    && s.lost == 0
    && (s.finalAttempts.Some? ==> s.finalAttempts.value >= 1)
    && (Busy(s) && s.pc.mode.Final? && s.pc.mode.maxAttempts.Some? ==> s.pc.mode.maxAttempts.value >= 1)
  }

  lemma StepKeepsBudgets(cfg: Config, s: State, l: Label)
    requires BudgetsOk(s) && (cfg.maxRetries >= 1 || !cfg.hasPlane)
    requires l.Stop? && l.maxAttempts.Some? ==> l.maxAttempts.value >= 1
    ensures BudgetsOk(Step(cfg, s, l))
  {
    hide AfterHand, AfterGather, AfterPost;
    if Enabled(s, l) {
      match l
      case Hand(breakerAllows) => HandKeepsBudgets(cfg, s, breakerAllows);
      case Gather => GatherKeepsBudgets(cfg, s);
      case EndPost(ok) => PostKeepsBudgets(s, ok);
      case _ =>
    }
  }

  lemma HandKeepsBudgets(cfg: Config, s: State, breakerAllows: bool)
    requires BudgetsOk(s) && s.pc.Handing? && (cfg.maxRetries >= 1 || !cfg.hasPlane)
    ensures BudgetsOk(AfterHand(cfg, s, breakerAllows))
  {
  }

  lemma GatherKeepsBudgets(cfg: Config, s: State)
    requires BudgetsOk(s) && s.pc.Gathering?
    ensures BudgetsOk(AfterGather(cfg, s))
  {
  }

  lemma PostKeepsBudgets(s: State, ok: bool)
    requires BudgetsOk(s) && s.pc.InPost?
    ensures BudgetsOk(AfterPost(s, ok))
  {
  }

  // With at least one attempt per batch, or with no control plane, nothing is ever lost
  // uncounted.
  lemma {:induction false} NothingLostWithAnAttempt(cfg: Config, labels: seq<Label>)
    requires (cfg.maxRetries >= 1 || !cfg.hasPlane) && PositiveBudgets(labels)
    ensures BudgetsOk(Run(cfg, labels))
  {
    hide Step;
    if labels != [] {
      NothingLostWithAnAttempt(cfg, labels[..|labels| - 1]);
      StepKeepsBudgets(cfg, Run(cfg, labels[..|labels| - 1]), labels[|labels| - 1]);
    }
  }

  lemma RunStep(cfg: Config, labels: seq<Label>, l: Label)
    ensures Run(cfg, labels + [l]) == Step(cfg, Run(cfg, labels), l)
  {
    assert (labels + [l])[..|labels|] == labels;
  }

  // Without one, a batch vanishes: neither shipped nor counted as dropped.
  lemma NoAttemptLosesABatch(cfg: Config) returns (labels: seq<Label>)
    requires cfg.maxRetries < 1 && cfg.hasPlane
    ensures PositiveBudgets(labels)
    ensures var s := Run(cfg, labels);
            s.published == 1 && s.lost == 1 && s.shipped == s.droppedTotal == 0 && s.queue == s.hand == []
  {
    var l1 := [Publish];
    var l2 := l1 + [Start];
    var l3 := l2 + [Poll];
    var l4 := l3 + [Gather];
    var l5 := l4 + [Gather];
    var l6 := if Run(cfg, l5).pc.Handing? then l5 else l5 + [Gather];
    RunStep(cfg, [], Publish);
    assert [] + [Publish] == l1;
    RunStep(cfg, l1, Start);
    RunStep(cfg, l2, Poll);
    RunStep(cfg, l3, Gather);
    RunStep(cfg, l4, Gather);
    RunStep(cfg, l5, Gather);
    RunStep(cfg, l6, Hand(true));
    labels := l6 + [Hand(true)];
  }

  // Every event is shipped, observed or counted as dropped in every run, whatever the
  // breaker and the queue, exactly when a batch gets an attempt or there is nowhere to post.
  lemma NothingLostExactlyWhen(cfg: Config)
    ensures (forall labels :: PositiveBudgets(labels) ==> Run(cfg, labels).lost == 0)
       <==> !cfg.hasPlane || cfg.maxRetries >= 1
  {
    if !cfg.hasPlane || cfg.maxRetries >= 1 {
      forall labels | PositiveBudgets(labels) ensures Run(cfg, labels).lost == 0 {
        NothingLostWithAnAttempt(cfg, labels);
      }
    } else {
      var labels := NoAttemptLosesABatch(cfg);
    }
  }

  // ------------------------------------------------------------------------------
  // Order
  // ------------------------------------------------------------------------------

  function Concat(batches: seq<seq<Event>>): seq<Event> {
    if batches == [] then [] else Concat(batches[..|batches| - 1]) + batches[|batches| - 1]
  }

  // What the worker has taken but not yet given to shipping.
  function Unhanded(s: State): seq<Event> {
    if s.pc.Gathering? || s.pc.Handing? then s.hand else []
  }

  ghost predicate LinedUp(s: State) {
    s.accepted == Concat(s.handed) + Unhanded(s) + s.queue
  }

  ghost predicate Increasing(s: State) {
    && (forall i, j :: 0 <= i < j < |s.accepted| ==> s.accepted[i] < s.accepted[j])
    && (forall i :: 0 <= i < |s.accepted| ==> s.accepted[i] < s.published)
  }

  lemma ConcatOneMore(batches: seq<seq<Event>>, batch: seq<Event>)
    ensures Concat(batches + [batch]) == Concat(batches) + batch
  {
    assert (batches + [batch])[..|batches|] == batches;
  }

  lemma StepKeepsLineUp(cfg: Config, s: State, l: Label)
    requires LinedUp(s) && Conserved(s)
    ensures LinedUp(Step(cfg, s, l))
  {
    hide Concat, AfterHand, AfterGather, AfterPost;
    if Enabled(s, l) {
      match l
      case Hand(breakerAllows) => HandKeepsLineUp(cfg, s, breakerAllows);
      case Gather => GatherKeepsLineUp(cfg, s);
      case EndPost(ok) => PostKeepsLineUp(s, ok);
      case _ =>
    }
  }

  lemma HandKeepsLineUp(cfg: Config, s: State, breakerAllows: bool)
    requires LinedUp(s) && s.pc.Handing?
    ensures LinedUp(AfterHand(cfg, s, breakerAllows))
  {
    hide Concat;
    ConcatOneMore(s.handed, s.hand);
  }

  lemma GatherKeepsLineUp(cfg: Config, s: State)
    requires LinedUp(s) && s.pc.Gathering?
    ensures LinedUp(AfterGather(cfg, s))
  {
    hide Concat;
    if s.queue != [] {
      assert s.queue == [s.queue[0]] + s.queue[1..];
    }
  }

  lemma PostKeepsLineUp(s: State, ok: bool)
    requires LinedUp(s) && s.pc.InPost?
    ensures LinedUp(AfterPost(s, ok))
  {
    hide Concat;
  }

  lemma StepKeepsIncreasing(cfg: Config, s: State, l: Label)
    requires Increasing(s)
    ensures Increasing(Step(cfg, s, l))
  {
    hide Increasing;
    if !l.Publish? {
      SameAcceptance(cfg, s, l);
      StillIncreasing(s, Step(cfg, s, l));
    } else {
      PublishKeepsIncreasing(cfg, s);
    }
  }

  lemma SameAcceptance(cfg: Config, s: State, l: Label)
    requires !l.Publish?
    ensures Step(cfg, s, l).accepted == s.accepted && Step(cfg, s, l).published == s.published
  {
    hide AfterHand, AfterGather, AfterPost;
    if Enabled(s, l) {
      match l
      case Hand(allows) => HandAcceptsNothing(cfg, s, allows);
      case Gather => GatherAcceptsNothing(cfg, s);
      case EndPost(ok) => PostAcceptsNothing(s, ok);
      case _ =>
    }
  }

  lemma HandAcceptsNothing(cfg: Config, s: State, allows: bool)
    requires s.pc.Handing?
    ensures var t := AfterHand(cfg, s, allows); t.accepted == s.accepted && t.published == s.published
  {
  }

  lemma GatherAcceptsNothing(cfg: Config, s: State)
    requires s.pc.Gathering?
    ensures var t := AfterGather(cfg, s); t.accepted == s.accepted && t.published == s.published
  {
  }

  lemma PostAcceptsNothing(s: State, ok: bool)
    requires s.pc.InPost?
    ensures var t := AfterPost(s, ok); t.accepted == s.accepted && t.published == s.published
  {
  }

  lemma StillIncreasing(s: State, t: State)
    requires Increasing(s) && t.accepted == s.accepted && t.published == s.published
    ensures Increasing(t)
  {
  }

  lemma PublishKeepsIncreasing(cfg: Config, s: State)
    requires Increasing(s)
    ensures Increasing(Step(cfg, s, Publish))
  {
    hide AfterGather, AfterHand, AfterPost, AfterStop;
  }

  // Batches handed to shipping concatenate to a prefix of the accepted events in publish
  // order, and accepted events are distinct: no event is in two batches.
  lemma {:induction false} BatchesAreInPublishOrder(cfg: Config, labels: seq<Label>)
    ensures LinedUp(Run(cfg, labels)) && Increasing(Run(cfg, labels))
    ensures Concat(Run(cfg, labels).handed) <= Run(cfg, labels).accepted
  {
    hide Step, Increasing;
    if labels == [] {
      InitialIncreasing();
    } else {
      var rest := labels[..|labels| - 1];
      BatchesAreInPublishOrder(cfg, rest);
      TelemetryIsConserved(cfg, rest);
      StepKeepsLineUp(cfg, Run(cfg, rest), labels[|labels| - 1]);
      StepKeepsIncreasing(cfg, Run(cfg, rest), labels[|labels| - 1]);
    }
  }

  lemma InitialIncreasing()
    ensures Increasing(Initial())
  {
  }

  // ------------------------------------------------------------------------------
  // Shutdown
  // ------------------------------------------------------------------------------

  ghost predicate ShutdownOk(cfg: Config, s: State) {
    && (s.pc.ReadingFlags? || s.pc.Stopped? || s.drainSeen ==> s.closed)
    && (s.pc.ReadingFlags? ==> !s.drainSeen)
    && (Busy(s) ==> (s.drainSeen <==> s.pc.mode.Final?))
    && (s.pc.NotStarted? || s.pc.Polling? ==> !s.drainSeen)
    && (s.pc.Stopped? && s.drainSeen && cfg.batchSize >= 1 ==> s.queue == [])
  }

  lemma {:induction false} RunShutdownOk(cfg: Config, labels: seq<Label>)
    ensures ShutdownOk(cfg, Run(cfg, labels))
  {
    if labels != [] {
      RunShutdownOk(cfg, labels[..|labels| - 1]);
      TelemetryIsConserved(cfg, labels[..|labels| - 1]);
      StepShutdownOk(cfg, Run(cfg, labels[..|labels| - 1]), labels[|labels| - 1]);
    }
  }

  lemma StepShutdownOk(cfg: Config, s: State, l: Label)
    requires ShutdownOk(cfg, s) && Conserved(s)
    ensures ShutdownOk(cfg, Step(cfg, s, l))
  {
  }

  // A drain the worker saw leaves the queue empty, and every accepted event was handed to
  // shipping, in order.
  lemma DrainIsComplete(cfg: Config, labels: seq<Label>)
    requires cfg.batchSize >= 1
    requires Run(cfg, labels).pc.Stopped? && Run(cfg, labels).drainSeen
    ensures var s := Run(cfg, labels);
            && s.queue == [] && Concat(s.handed) == s.accepted
            && s.published == s.shipped + s.observed + s.droppedTotal + s.lost + s.uncounted
  {
    RunShutdownOk(cfg, labels);
    TelemetryIsConserved(cfg, labels);
    BatchesAreInPublishOrder(cfg, labels);
  }

  // A drain was asked for, and a worker that has finished saw it.
  ghost predicate DrainOwed(s: State) {
    s.drainRequested && (s.pc.Stopped? ==> s.drainSeen)
  }

  // A drain asked for before the worker reads its flag is seen, whatever happens next, and
  // leaves nothing behind: when the worker has stopped the queue is empty and every
  // accepted event was handed to shipping, in order.
  lemma {:induction false} DrainAskedInTimeIsComplete(cfg: Config, labels: seq<Label>, more: seq<Label>)
    requires Run(cfg, labels).drainRequested && !Run(cfg, labels).pc.Stopped?
    ensures DrainOwed(Run(cfg, labels + more))
    ensures var s := Run(cfg, labels + more);
            s.pc.Stopped? && cfg.batchSize >= 1 ==> s.drainSeen && s.queue == [] && Concat(s.handed) == s.accepted
    decreases |more|
  {
    hide Step;
    if more == [] {
      assert labels + more == labels;
    } else {
      var rest := labels + more[..|more| - 1];
      DrainAskedInTimeIsComplete(cfg, labels, more[..|more| - 1]);
      assert (labels + more)[..|labels + more| - 1] == rest;
      RunShutdownOk(cfg, rest);
      StepKeepsDrainOwed(cfg, Run(cfg, rest), more[|more| - 1]);
    }
    if Run(cfg, labels + more).pc.Stopped? && cfg.batchSize >= 1 {
      DrainIsComplete(cfg, labels + more);
    }
  }

  lemma StepKeepsDrainOwed(cfg: Config, s: State, l: Label)
    requires DrainOwed(s) && ShutdownOk(cfg, s)
    ensures DrainOwed(Step(cfg, s, l))
  {
  }

  // With a batch size below one the final flush collects nothing and leaves the queue as it is.
  lemma NoBatchSizeNoDrain(cfg: Config)
    requires cfg.batchSize < 1
    ensures exists labels :: var s := Run(cfg, labels); s.pc.Stopped? && s.drainSeen && s.queue != []
  {
    var l1 := [Publish];
    var l2 := l1 + [Stop(true, None)];
    var l3 := l2 + [ReadFlags];
    RunStep(cfg, [], Publish);
    assert [] + [Publish] == l1;
    RunStep(cfg, l1, Stop(true, None));
    RunStep(cfg, l2, ReadFlags);
    RunStep(cfg, l3, Gather);
    assert Run(cfg, l3 + [Gather]).pc.Stopped?;
  }

  // So a drain the worker saw leaves the queue empty in every run exactly for batch sizes
  // of at least one.
  lemma DrainEmptiesExactlyWhen(cfg: Config)
    ensures (forall labels :: Run(cfg, labels).pc.Stopped? && Run(cfg, labels).drainSeen ==> Run(cfg, labels).queue == [])
       <==> cfg.batchSize >= 1
  {
    if cfg.batchSize >= 1 {
      forall labels | Run(cfg, labels).pc.Stopped? && Run(cfg, labels).drainSeen ensures Run(cfg, labels).queue == [] {
        DrainIsComplete(cfg, labels);
      }
    } else {
      NoBatchSizeNoDrain(cfg);
    }
  }

  // An event is accepted exactly when the bus is open and its queue, if bounded at all, has
  // room; otherwise it waits to be counted as dropped. No bounded queue is ever overfull.
  lemma PublishComesTo(cfg: Config, labels: seq<Label>)
    ensures var s, t := Run(cfg, labels), Run(cfg, labels + [Publish]);
            if !s.closed && (cfg.maxQueue <= 0 || |s.queue| < cfg.maxQueue)
            then t.queue == s.queue + [s.published] && t.accepted == s.accepted + [s.published] && t.uncounted == s.uncounted
            else t.queue == s.queue && t.accepted == s.accepted && t.uncounted == s.uncounted + 1
  {
    hide Run;
    RunStep(cfg, labels, Publish);
  }

  ghost predicate WithinSizes(cfg: Config, s: State) {
    && (cfg.maxQueue > 0 ==> |s.queue| <= cfg.maxQueue)
    && (s.pc.Gathering? || s.pc.Handing? ==> |s.hand| <= Largest(cfg))
    && (s.pc.Handing? ==> s.hand != [])
    && (s.pc.NotStarted? || s.pc.Polling? || s.pc.ReadingFlags? ==> s.hand == [])
    && forall i :: 0 <= i < |s.handed| ==> 1 <= |s.handed[i]| <= Largest(cfg)
  }

  // The most events a batch can hold; a worker always takes the first it waited for.
  function Largest(cfg: Config): int {
    if cfg.batchSize < 1 then 1 else cfg.batchSize
  }

  // Queue and batches stay within their sizes, and no batch is empty.
  lemma {:induction false} SizesAreKept(cfg: Config, labels: seq<Label>)
    ensures WithinSizes(cfg, Run(cfg, labels))
  {
    hide Step, WithinSizes;
    if labels != [] {
      SizesAreKept(cfg, labels[..|labels| - 1]);
      StepKeepsSizes(cfg, Run(cfg, labels[..|labels| - 1]), labels[|labels| - 1]);
    } else {
      NothingIsWithinSizes(cfg);
    }
  }

  lemma NothingIsWithinSizes(cfg: Config)
    ensures WithinSizes(cfg, Initial())
  {
  }

  lemma StepKeepsSizes(cfg: Config, s: State, l: Label)
    requires WithinSizes(cfg, s)
    ensures WithinSizes(cfg, Step(cfg, s, l))
  {
    hide AfterHand, AfterGather, AfterPost;
    if Enabled(s, l) {
      match l
      case Hand(allows) => HandKeepsSizes(cfg, s, allows);
      case Gather => GatherKeepsSizes(cfg, s);
      case EndPost(ok) => PostKeepsSizes(cfg, s, ok);
      case _ =>
    }
  }

  lemma HandKeepsSizes(cfg: Config, s: State, allows: bool)
    requires WithinSizes(cfg, s) && s.pc.Handing?
    ensures WithinSizes(cfg, AfterHand(cfg, s, allows))
  {
  }

  lemma GatherKeepsSizes(cfg: Config, s: State)
    requires WithinSizes(cfg, s) && s.pc.Gathering?
    ensures WithinSizes(cfg, AfterGather(cfg, s))
  {
  }

  lemma PostKeepsSizes(cfg: Config, s: State, ok: bool)
    requires WithinSizes(cfg, s) && s.pc.InPost?
    ensures WithinSizes(cfg, AfterPost(s, ok))
  {
  }

  // A batch is closed only when it is full or there was nothing left to take.
  lemma BatchesAreGreedy(cfg: Config, labels: seq<Label>)
    requires Run(cfg, labels).pc.Gathering? && Run(cfg, labels + [Gather]).pc.Handing?
    ensures var s := Run(cfg, labels); s.queue == [] || |s.hand| >= cfg.batchSize
  {
    hide Run;
    RunStep(cfg, labels, Gather);
  }

  // The attempts stop asked for, from its calls alone: the least of those that named any.
  function LeastAsked(labels: seq<Label>): Option<int> {
    if labels == [] then None else Lesser(LeastAsked(labels[..|labels| - 1]), labels[|labels| - 1])
  }

  function Lesser(asked: Option<int>, l: Label): Option<int> {
    match l
    case Stop(_, Some(m)) => if asked == None || m < asked.value then Some(m) else asked
    case _ => asked
  }

  // The final flush works with the least number of attempts any stop asked for before its
  // flags were read.
  lemma {:induction false} FinalAttemptsAreTheLeast(cfg: Config, labels: seq<Label>)
    ensures Run(cfg, labels).finalAttempts == LeastAsked(labels)
    ensures var s := Run(cfg, labels);
            s.pc == ReadingFlags && s.drainRequested ==> Run(cfg, labels + [ReadFlags]).pc == Gathering(Final(LeastAsked(labels)))
  {
    if labels != [] {
      hide Step;
      var rest, l := labels[..|labels| - 1], labels[|labels| - 1];
      FinalAttemptsAreTheLeast(cfg, rest);
      StepAsks(cfg, Run(cfg, rest), l);
    }
    ReadStep(cfg, Run(cfg, labels));
    RunStep(cfg, labels, ReadFlags);
  }

  lemma StepAsks(cfg: Config, s: State, l: Label)
    ensures Step(cfg, s, l).finalAttempts == Lesser(s.finalAttempts, l)
  {
    hide AfterHand, AfterGather, AfterPost;
    if Enabled(s, l) {
      match l
      case Hand(allows) => HandAsksNothing(cfg, s, allows);
      case Gather => GatherAsksNothing(cfg, s);
      case EndPost(ok) => PostAsksNothing(s, ok);
      case _ =>
    }
  }

  lemma HandAsksNothing(cfg: Config, s: State, allows: bool)
    requires s.pc.Handing?
    ensures AfterHand(cfg, s, allows).finalAttempts == s.finalAttempts
  {
  }

  lemma GatherAsksNothing(cfg: Config, s: State)
    requires s.pc.Gathering?
    ensures AfterGather(cfg, s).finalAttempts == s.finalAttempts
  {
  }

  lemma PostAsksNothing(s: State, ok: bool)
    requires s.pc.InPost?
    ensures AfterPost(s, ok).finalAttempts == s.finalAttempts
  {
  }

  lemma ReadStep(cfg: Config, s: State)
    ensures s.pc == ReadingFlags && s.drainRequested ==> Step(cfg, s, ReadFlags).pc == Gathering(Final(s.finalAttempts))
  {
  }

  ghost predicate LateOk(s: State) {
    && s.worstLate <= 1
    && (s.late > 0 ==> s.closed && (s.pc.InPost? || s.pc.Backoff?) && s.late == 1)
  }

  // Once stop has been signalled each batch is posted at most once more.
  lemma {:induction false} AtMostOnePostAfterStop(cfg: Config, labels: seq<Label>)
    ensures LateOk(Run(cfg, labels))
  {
    hide Step;
    if labels != [] {
      AtMostOnePostAfterStop(cfg, labels[..|labels| - 1]);
      StepKeepsLate(cfg, Run(cfg, labels[..|labels| - 1]), labels[|labels| - 1]);
    }
  }

  lemma StepKeepsLate(cfg: Config, s: State, l: Label)
    requires LateOk(s)
    ensures LateOk(Step(cfg, s, l))
  {
  }

  // Nothing is accepted once the bus is closed.
  lemma {:induction false} ClosedAcceptsNothing(cfg: Config, labels: seq<Label>, more: seq<Label>)
    requires Run(cfg, labels).closed
    ensures Run(cfg, labels + more).closed && Run(cfg, labels + more).accepted == Run(cfg, labels).accepted
  {
    hide Step;
    if more == [] {
      assert labels + more == labels;
    } else {
      assert (labels + more)[..|labels + more| - 1] == labels + more[..|more| - 1];
      ClosedAcceptsNothing(cfg, labels, more[..|more| - 1]);
      StepKeepsClosed(cfg, Run(cfg, labels + more[..|more| - 1]), more[|more| - 1]);
    }
  }

  lemma StepKeepsClosed(cfg: Config, s: State, l: Label)
    requires s.closed
    ensures Step(cfg, s, l).closed && Step(cfg, s, l).accepted == s.accepted
  {
  }

  // How far a closed bus is from the end of its worker.
  function WorkLeft(s: State): int {
    8 * |s.queue| +
    match s.pc
    case NotStarted => 0
    case Stopped => 0
    case ReadingFlags => 2
    case Polling => 3
    case Gathering(mode) => (if mode.Regular? then 4 else 1) + (if s.hand != [] then 7 else 0)
    case Handing(mode) => if mode.Regular? then 10 else 7
    case Posting(mode, _, _) => if mode.Regular? then 9 else 6
    case InPost(mode, _, _) => if mode.Regular? then 8 else 5
    case Backoff(mode, _, _) => if mode.Regular? then 7 else 4
  }

  lemma HandSinks(cfg: Config, s: State, breakerAllows: bool)
    requires s.pc.Handing?
    ensures 0 <= WorkLeft(AfterHand(cfg, s, breakerAllows)) < WorkLeft(s)
  {
  }

  lemma GatherSinks(cfg: Config, s: State)
    requires s.pc.Gathering?
    ensures 0 <= WorkLeft(AfterGather(cfg, s)) < WorkLeft(s)
  {
  }

  lemma PostSinks(s: State, ok: bool)
    requires s.pc.InPost?
    ensures 0 <= WorkLeft(AfterPost(s, ok)) < WorkLeft(s)
  {
  }

  lemma StepSinks(cfg: Config, s: State, l: Label)
    requires s.closed && s.pc != NotStarted && Conserved(s)
    ensures 0 <= WorkLeft(Step(cfg, s, l)) <= WorkLeft(s)
    ensures WorkerLabel(l) && Enabled(s, l) ==> WorkLeft(Step(cfg, s, l)) < WorkLeft(s)
  {
    hide AfterHand, AfterGather, AfterPost;
    if Enabled(s, l) {
      match l
      case Hand(breakerAllows) => HandSinks(cfg, s, breakerAllows);
      case Gather => GatherSinks(cfg, s);
      case EndPost(ok) => PostSinks(s, ok);
      case _ =>
    }
  }

  lemma SomeStepIsEnabled(s: State)
    requires s.closed && s.pc != NotStarted
    ensures !s.pc.Stopped? ==> exists l :: WorkerLabel(l) && Enabled(s, l)
  {
    if !s.pc.Stopped? {
      var l := match s.pc
        case Polling => Poll
        case Gathering(_) => Gather
        case Handing(_) => Hand(true)
        case Posting(_, _, _) => BeginPost
        case InPost(_, _, _) => EndPost(true)
        case Backoff(_, _, _) => EndWait
        case ReadingFlags => ReadFlags;
      assert WorkerLabel(l) && Enabled(s, l);
    }
  }

  // Shutdown always finishes: whatever the network answers, every step of a closed bus's
  // worker brings it strictly closer to its end, and nothing else can push it back.
  lemma ShutdownFinishes(cfg: Config, s: State, l: Label)
    requires s.closed && s.pc != NotStarted && Conserved(s)
    ensures 0 <= WorkLeft(Step(cfg, s, l)) <= WorkLeft(s)
    ensures WorkerLabel(l) && Enabled(s, l) ==> WorkLeft(Step(cfg, s, l)) < WorkLeft(s)
    ensures !s.pc.Stopped? ==> exists l' :: WorkerLabel(l') && Enabled(s, l')
  {
    hide Step, WorkLeft, Enabled, WorkerLabel, Conserved;
    StepSinks(cfg, s, l);
    SomeStepIsEnabled(s);
  }
}
