// validate_contract_usecase.py: native rules, then semantic evaluation, each under its own
// deadline inside one aggregate deadline. The clock is any function of the number of
// readings taken so far, the runner may return late or raise anything.
module ValidateUseCase {
  import opened Options
  import opened Breaches

  datatype Stage = Native | Semantic

  datatype Reason = Timeout | SemanticTimeout | ShedLoad | ResourceError | InternalError | InvalidPayload | InvalidContract

  datatype Status = Pass | Fail

  datatype ValidationResult = ValidationResult(
    status: Status, breaches: seq<Breach>, degraded: bool, reason: Option<Reason>, stage: Option<Stage>)

  datatype FailMode = Strict | Degrade | Silent

  datatype Settings = Settings(
    timeoutMs: int, nativeMs: Option<int>, semanticMs: Option<int>, hasSemantic: bool,
    failMode: FailMode, maxPayloadBytes: int, maxSchemaBytes: int)

  // What running a stage on the pool can end in. A Congine exception, like one that is
  // not an Exception at all, is never turned into a result.
  datatype Ended<+T> =
    | Returned(value: T)
    | RaisedLoadShed
    | RaisedTimeout
    | RaisedResource           // MemoryError, RecursionError
    | RaisedCongine
    | RaisedOther

  // Everything a call depends on that is not its own code. A size is None when the value
  // cannot be serialised, the schema is absent when storage has none.
  datatype World = World(
    payloadSize: Option<nat>, schemaFound: bool, schemaSize: Option<nat>,
    clock: nat -> int, native: Ended<ValidationResult>, semantic: Ended<seq<Breach>>,
    sanitize: Breach -> Breach)

  datatype Event = Event(status: Status, breaches: seq<Breach>, reason: Option<Reason>, stage: Option<Stage>)

  // What one stage did with the clock: readings and deadlines in nanoseconds.
  datatype StageRecord = StageRecord(
    stage: Stage, openedAt: int, waitMs: int, deadline: int, aggregate: int, stageCheck: Option<int>, aggregateCheck: Option<int>)

  datatype Outcome =
    | Result(result: ValidationResult)
    | ValidationError(result: ValidationResult)   // CongineValidationError, after publishing
    | NotFound                                    // CongineContractNotFoundError
    | Propagated                                  // a Congine exception from inside a stage

  datatype Execution = Execution(outcome: Outcome, events: seq<Event>, stages: seq<StageRecord>)

  const NS_PER_MS := 1_000_000

  // ------------------------------------------------------------------------------
  // The specification
  // ------------------------------------------------------------------------------

  function DegradedResult(reason: Reason, stage: Option<Stage>): ValidationResult {
    ValidationResult(Fail, [], true, Some(reason), stage)
  }

  function TooLarge(field: string, message: string): ValidationResult {
    ValidationResult(Fail, [Breach("INPUT_BOUNDS", field, message)], false, None, None)
  }

  function TimeoutReason(stage: Stage): Reason {
    if stage == Native then Timeout else SemanticTimeout
  }

  function StageDeadline(aggregate: int, now: int, capMs: Option<int>): int {
    match capMs
    case None => aggregate
    case Some(cap) => if now + cap * NS_PER_MS < aggregate then now + cap * NS_PER_MS else aggregate
  }

  // Floor division, never below zero.
  function WaitMs(deadline: int, now: int): int {
    if deadline <= now then 0 else (deadline - now) / NS_PER_MS
  }

  // What a stage hands back: its value, or the result that ends the call.
  datatype StageEnd<+T> = Value(value: T) | Abandoned(reason: Reason) | Raised

  // One stage, from the reading numbered n on.
  function StageRun<T>(w: World, n: nat, aggregate: int, capMs: Option<int>, stage: Stage, ended: Ended<T>)
    : (StageEnd<T>, StageRecord, nat)
  {
    var now := w.clock(n);
    var deadline := StageDeadline(aggregate, now, capMs);
    var wait := WaitMs(deadline, now);
    var begun := StageRecord(stage, now, wait, deadline, aggregate, None, None);
    if wait <= 0 then (Abandoned(TimeoutReason(stage)), begun, n + 1)
    else
      match ended
      case RaisedLoadShed => (Abandoned(ShedLoad), begun, n + 1)
      case RaisedTimeout => (Abandoned(TimeoutReason(stage)), begun, n + 1)
      case RaisedResource => (Abandoned(ResourceError), begun, n + 1)
      case RaisedOther => (Abandoned(InternalError), begun, n + 1)
      case RaisedCongine => (Raised, begun, n + 1)
      case Returned(value) =>
        var t := w.clock(n + 1);
        var half := begun.(stageCheck := Some(t));
        if t >= deadline then (Abandoned(TimeoutReason(stage)), half, n + 2)
        else
          var u := w.clock(n + 2);
          var full := half.(aggregateCheck := Some(u));
          (if u >= aggregate then Abandoned(TimeoutReason(stage)) else Value(value), full, n + 3)
  }

  function EventOf(w: World, r: ValidationResult): Event {
    Event(r.status, Sanitized(w, r.breaches),
          if r.degraded then r.reason else None, if r.degraded then r.stage else None)
  }

  function Sanitized(w: World, breaches: seq<Breach>): seq<Breach> {
    if breaches == [] then []
    else Sanitized(w, breaches[..|breaches| - 1]) + [w.sanitize(breaches[|breaches| - 1])]
  }

  // _finalize: publish, then apply the fail mode.
  function Finalized(cfg: Settings, w: World, r: ValidationResult, stages: seq<StageRecord>): Execution {
    Execution(if r.status == Fail && cfg.failMode == Strict then ValidationError(r) else Result(r), [EventOf(w, r)], stages)
  }

  function Merged(native: ValidationResult, semantic: seq<Breach>): ValidationResult {
    var breaches := native.breaches + semantic;
    ValidationResult(if breaches == [] then Pass else Fail, breaches, native.degraded, native.reason, Some(Semantic))
  }

  function SizeProblem(size: Option<nat>, max: int, reason: Reason, oversize: ValidationResult): Option<ValidationResult> {
    match size
    case None => Some(DegradedResult(reason, None))
    case Some(n) => if n > max then Some(oversize) else None
  }

  function PayloadProblem(cfg: Settings, w: World): Option<ValidationResult> {
    SizeProblem(w.payloadSize, cfg.maxPayloadBytes, InvalidPayload,
                TooLarge("<root>", "Payload exceeds max_payload_bytes budget"))
  }

  function SchemaProblem(cfg: Settings, w: World): Option<ValidationResult> {
    SizeProblem(w.schemaSize, cfg.maxSchemaBytes, InvalidContract,
                TooLarge("<schema>", "Schema exceeds max_schema_bytes budget"))
  }

  function Execute(cfg: Settings, w: World): Execution {
    if PayloadProblem(cfg, w).Some? then Finalized(cfg, w, PayloadProblem(cfg, w).value, [])
    else if !w.schemaFound then Execution(NotFound, [], [])
    else if SchemaProblem(cfg, w).Some? then Finalized(cfg, w, SchemaProblem(cfg, w).value, [])
    else NativeStage(cfg, w, w.clock(0) + cfg.timeoutMs * NS_PER_MS)
  }

  function NativeStage(cfg: Settings, w: World, aggregate: int): Execution {
    var (end, record, n) := StageRun(w, 1, aggregate, cfg.nativeMs, Native, w.native);
    match end
    case Raised => Execution(Propagated, [], [record])
    case Abandoned(reason) => Finalized(cfg, w, DegradedResult(reason, Some(Native)), [record])
    case Value(native) =>
      if native.degraded then Finalized(cfg, w, native, [record])
      else if !cfg.hasSemantic then Finalized(cfg, w, native.(stage := Some(Native)), [record])
      else if w.clock(n) >= aggregate then
        Finalized(cfg, w, DegradedResult(SemanticTimeout, Some(Semantic)), [record])
      else SemanticStage(cfg, w, aggregate, native, record, n + 1)
  }

  function SemanticStage(cfg: Settings, w: World, aggregate: int, native: ValidationResult, first: StageRecord, n: nat): Execution {
    var (end, record, _) := StageRun(w, n, aggregate, cfg.semanticMs, Semantic, w.semantic);
    match end
    case Raised => Execution(Propagated, [], [first, record])
    case Abandoned(reason) => Finalized(cfg, w, DegradedResult(reason, Some(Semantic)), [first, record])
    case Value(breaches) => Finalized(cfg, w, Merged(native, breaches), [first, record])
  }

  // ------------------------------------------------------------------------------
  // The objects
  // ------------------------------------------------------------------------------

  class Clock {
    const reading: nat -> int
    var taken: nat

    constructor (reading: nat -> int)
      ensures this.reading == reading && taken == 0
    {
      this.reading, taken := reading, 0;
    }

    method Now() returns (t: int)
      modifies this
      ensures t == reading(old(taken)) && taken == old(taken) + 1
    {
      t := reading(taken);
      taken := taken + 1;
    }
  }

  class StageBudget {
    const clock: Clock
    const aggregateDeadline: int
    var stageDeadline: int

    constructor (clock: Clock, timeoutMs: int)
      modifies clock
      ensures this.clock == clock && clock.taken == old(clock.taken) + 1
      ensures aggregateDeadline == stageDeadline == clock.reading(old(clock.taken)) + timeoutMs * NS_PER_MS
    {
      this.clock := clock;
      var now := clock.Now();
      aggregateDeadline := now + timeoutMs * NS_PER_MS;
      stageDeadline := now + timeoutMs * NS_PER_MS;
    }

    method OpenStage(capMs: Option<int>) returns (waitMs: int)
      modifies this, clock
      ensures var now := clock.reading(old(clock.taken));
              stageDeadline == StageDeadline(aggregateDeadline, now, capMs) && waitMs == WaitMs(stageDeadline, now)
      ensures clock.taken == old(clock.taken) + 1
    {
      var now := clock.Now();
      stageDeadline := aggregateDeadline;
      if capMs.Some? && now + capMs.value * NS_PER_MS < aggregateDeadline {
        stageDeadline := now + capMs.value * NS_PER_MS;
      }
      waitMs := (stageDeadline - now) / NS_PER_MS;
      if waitMs < 0 {
        waitMs := 0;
      }
    }

    method AggregateExpired() returns (expired: bool)
      modifies clock
      ensures expired == (clock.reading(old(clock.taken)) >= aggregateDeadline) && clock.taken == old(clock.taken) + 1
    {
      var now := clock.Now();
      expired := now >= aggregateDeadline;
    }

    // Reads the clock a second time only when the stage deadline has not passed.
    method Exhausted() returns (exhausted: bool, ghost stageCheck: int, ghost aggregateCheck: Option<int>)
      modifies clock
      ensures stageCheck == clock.reading(old(clock.taken))
      ensures stageCheck >= stageDeadline ==> exhausted && aggregateCheck == None && clock.taken == old(clock.taken) + 1
      ensures stageCheck < stageDeadline ==>
                && clock.taken == old(clock.taken) + 2
                && aggregateCheck == Some(clock.reading(old(clock.taken) + 1))
                && exhausted == (aggregateCheck.value >= aggregateDeadline)
    {
      var t := clock.Now();
      stageCheck, aggregateCheck := t, None;
      if t >= stageDeadline {
        return true, stageCheck, aggregateCheck;
      }
      var u := clock.Now();
      aggregateCheck := Some(u);
      exhausted := u >= aggregateDeadline;
    }
  }

  class ValidateContractUseCase {
    const cfg: Settings
    var published: seq<Event>

    constructor (cfg: Settings)
      ensures this.cfg == cfg && published == []
    {
      this.cfg, published := cfg, [];
    }

    method RunStage<T>(w: World, budget: StageBudget, stage: Stage, capMs: Option<int>, ended: Ended<T>)
      returns (end: StageEnd<T>, ghost record: StageRecord)
      requires budget.clock.reading == w.clock
      modifies budget, budget.clock
      ensures (end, record, budget.clock.taken)
           == StageRun(w, old(budget.clock.taken), budget.aggregateDeadline, capMs, stage, ended)
    {
      ghost var now := w.clock(budget.clock.taken);
      var waitMs := budget.OpenStage(capMs);
      record := StageRecord(stage, now, waitMs, budget.stageDeadline, budget.aggregateDeadline, None, None);
      if waitMs <= 0 {
        return Abandoned(TimeoutReason(stage)), record;
      }
      match ended
      case RaisedLoadShed => return Abandoned(ShedLoad), record;
      case RaisedTimeout => return Abandoned(TimeoutReason(stage)), record;
      case RaisedResource => return Abandoned(ResourceError), record;
      case RaisedOther => return Abandoned(InternalError), record;
      case RaisedCongine => return Raised, record;
      case Returned(value) =>
        var exhausted, stageCheck, aggregateCheck := budget.Exhausted();
        record := record.(stageCheck := Some(stageCheck), aggregateCheck := aggregateCheck);
        if exhausted {
          return Abandoned(TimeoutReason(stage)), record;
        }
        return Value(value), record;
    }

    method Finalize(w: World, r: ValidationResult, ghost stages: seq<StageRecord>) returns (outcome: Outcome)
      modifies this
      ensures outcome == Finalized(cfg, w, r, stages).outcome
      ensures published == old(published) + Finalized(cfg, w, r, stages).events
    {
      var details := [];
      for i := 0 to |r.breaches|
        invariant details == Sanitized(w, r.breaches[..i])
      {
        assert r.breaches[..i + 1][..i] == r.breaches[..i];
        details := details + [w.sanitize(r.breaches[i])];
      }
      assert r.breaches[..|r.breaches|] == r.breaches;
      published := published + [Event(r.status, details, if r.degraded then r.reason else None,
                                      if r.degraded then r.stage else None)];
      if r.status != Pass && cfg.failMode == Strict {
        return ValidationError(r);
      }
      outcome := Result(r);
    }

    method Run(w: World) returns (outcome: Outcome)
      modifies this
      ensures outcome == Execute(cfg, w).outcome
      ensures published == old(published) + Execute(cfg, w).events
    {
      hide NativeStage, Finalized, PayloadProblem, SchemaProblem;
      var oversize := PayloadProblem(cfg, w);
      if oversize.Some? {
        outcome := Finalize(w, oversize.value, []);
        return;
      }
      if !w.schemaFound {
        return NotFound;
      }
      var schemaOversize := SchemaProblem(cfg, w);
      if schemaOversize.Some? {
        outcome := Finalize(w, schemaOversize.value, []);
        return;
      }
      var clock := new Clock(w.clock);
      var budget := new StageBudget(clock, cfg.timeoutMs);
      outcome := RunStages(w, budget);
    }

    method RunStages(w: World, budget: StageBudget) returns (outcome: Outcome)
      requires budget.clock.reading == w.clock && budget.clock.taken == 1
      modifies this, budget, budget.clock
      ensures outcome == NativeStage(cfg, w, budget.aggregateDeadline).outcome
      ensures published == old(published) + NativeStage(cfg, w, budget.aggregateDeadline).events
    {
      hide StageRun, Finalized;
      var native, first := RunStage(w, budget, Native, cfg.nativeMs, w.native);
      match native
      case Raised => return Propagated;
      case Abandoned(reason) => outcome := Finalize(w, DegradedResult(reason, Some(Native)), [first]);
      case Value(result) =>
        if result.degraded {
          outcome := Finalize(w, result, [first]);
          return;
        }
        if !cfg.hasSemantic {
          outcome := Finalize(w, result.(stage := Some(Native)), [first]);
          return;
        }
        var expired := budget.AggregateExpired();
        if expired {
          outcome := Finalize(w, DegradedResult(SemanticTimeout, Some(Semantic)), [first]);
          return;
        }
        var semantic, second := RunStage(w, budget, Semantic, cfg.semanticMs, w.semantic);
        match semantic
        case Raised => return Propagated;
        case Abandoned(reason) => outcome := Finalize(w, DegradedResult(reason, Some(Semantic)), [first, second]);
        case Value(breaches) => outcome := Finalize(w, Merged(result, breaches), [first, second]);
    }
  }

  // ------------------------------------------------------------------------------
  // What every execution keeps
  // ------------------------------------------------------------------------------

  ghost predicate NeverBackwards(clock: nat -> int) {
    forall i, j :: i <= j ==> clock(i) <= clock(j)
  }

  // The wait never outruns the stage deadline, which never outruns the aggregate one.
  ghost predicate WaitsInside(r: StageRecord) {
    && 0 <= r.waitMs && r.deadline <= r.aggregate
    && (r.waitMs > 0 ==> r.openedAt + r.waitMs * NS_PER_MS <= r.deadline)
    && (r.stageCheck.Some? ==> r.waitMs > 0)
  }

  // The stage's value was accepted: both checks were made, each strictly before its deadline.
  ghost predicate InTime(r: StageRecord) {
    && r.waitMs > 0
    && r.stageCheck.Some? && r.stageCheck.value < r.deadline
    && r.aggregateCheck.Some? && r.aggregateCheck.value < r.aggregate
  }

  predicate StageReason(stage: Stage, reason: Reason) {
    reason == TimeoutReason(stage) || reason == ShedLoad || reason == ResourceError || reason == InternalError
  }

  // A stage is opened, then checked against its own deadline, then against the aggregate one.
  ghost predicate InSequence(r: StageRecord) {
    && (r.stageCheck.Some? ==> r.openedAt <= r.stageCheck.value)
    && (r.aggregateCheck.Some? ==> r.stageCheck.Some? && r.stageCheck.value <= r.aggregateCheck.value)
  }

  lemma StageRunIsBounded<T>(w: World, n: nat, aggregate: int, capMs: Option<int>, stage: Stage, ended: Ended<T>)
    ensures var (end, r, m) := StageRun(w, n, aggregate, capMs, stage, ended);
            && WaitsInside(r) && r.stage == stage && r.aggregate == aggregate && n < m <= n + 3
            && (end.Value? <==> InTime(r) && ended.Returned?)
            && (end.Value? ==> end.value == ended.value)
            && (end.Abandoned? ==> StageReason(stage, end.reason))
            && (NeverBackwards(w.clock) ==> InSequence(r) && w.clock(n) == r.openedAt)
            && (r.aggregateCheck.Some? ==> r.aggregateCheck.value == w.clock(m - 1))
  {
    var now := w.clock(n);
    var deadline := StageDeadline(aggregate, now, capMs);
    if deadline > now {
      assert (deadline - now) / NS_PER_MS * NS_PER_MS <= deadline - now;
    }
  }

  // Every wait handed to the runner, in every execution, stays inside its deadlines.
  lemma EveryWaitIsInside(cfg: Settings, w: World)
    ensures forall i :: 0 <= i < |Execute(cfg, w).stages| ==> WaitsInside(Execute(cfg, w).stages[i])
  {
    hide StageRun, WaitsInside;
    var aggregate := w.clock(0) + cfg.timeoutMs * NS_PER_MS;
    StageRunIsBounded(w, 1, aggregate, cfg.nativeMs, Native, w.native);
    var n := StageRun(w, 1, aggregate, cfg.nativeMs, Native, w.native).2;
    StageRunIsBounded(w, n + 1, aggregate, cfg.semanticMs, Semantic, w.semantic);
  }

  ghost function Verdict(o: Outcome): Option<ValidationResult> {
    match o
    case Result(r) => Some(r)
    case ValidationError(r) => Some(r)
    case _ => None
  }

  ghost predicate Enforced(e: Execution) {
    Verdict(e.outcome).Some? && !Verdict(e.outcome).value.degraded
  }

  // What a judgment that is not degraded rests on: an input over its size bound, or every
  // wired stage returned and was checked in time.
  ghost predicate Judged(cfg: Settings, w: World, e: Execution) {
    var aggregate := w.clock(0) + cfg.timeoutMs * NS_PER_MS;
    && w.native.Returned? && !w.native.value.degraded && (cfg.hasSemantic ==> w.semantic.Returned?)
    && |e.stages| == (if cfg.hasSemantic then 2 else 1)
    && e.stages[0].stage == Native && (cfg.hasSemantic ==> e.stages[1].stage == Semantic)
    && forall i :: 0 <= i < |e.stages| ==> InTime(e.stages[i]) && e.stages[i].aggregate == aggregate
  }

  ghost predicate Measured(cfg: Settings, w: World) {
    w.payloadSize.Some? && w.payloadSize.value <= cfg.maxPayloadBytes && w.schemaFound
    && w.schemaSize.Some? && w.schemaSize.value <= cfg.maxSchemaBytes
  }

  ghost function OnTimeVerdict(cfg: Settings, w: World): ValidationResult
    requires w.native.Returned? && (cfg.hasSemantic ==> w.semantic.Returned?)
  {
    if cfg.hasSemantic then Merged(w.native.value, w.semantic.value) else w.native.value.(stage := Some(Native))
  }

  // No late pass. Whatever the runner does and however the clock moves, a measured call
  // ends in an enforced verdict exactly when every wired stage returned and was checked
  // strictly before its own and the aggregate deadline; the verdict is then the native
  // result, or its breaches followed by the semantic ones.
  lemma NoLateVerdict(cfg: Settings, w: World)
    requires Measured(cfg, w)
    ensures Enforced(Execute(cfg, w)) <==> Judged(cfg, w, Execute(cfg, w))
    ensures Enforced(Execute(cfg, w)) ==> Verdict(Execute(cfg, w).outcome).value == OnTimeVerdict(cfg, w)
  {
    hide StageRun, InSequence;
    var aggregate := w.clock(0) + cfg.timeoutMs * NS_PER_MS;
    StageRunIsBounded(w, 1, aggregate, cfg.nativeMs, Native, w.native);
    var n := StageRun(w, 1, aggregate, cfg.nativeMs, Native, w.native).2;
    StageRunIsBounded(w, n + 1, aggregate, cfg.semanticMs, Semantic, w.semantic);
  }

  // A stage whose opening is reading n finds at least a millisecond left, in the aggregate
  // budget and in its own cap.
  ghost predicate OpensInTime(w: World, n: nat, aggregate: int, capMs: Option<int>) {
    w.clock(n) + NS_PER_MS <= aggregate && (capMs.Some? ==> 1 <= capMs.value)
  }

  // The two checks after it come before the stage's cap and the aggregate deadline.
  ghost predicate ChecksInTime(w: World, n: nat, aggregate: int, capMs: Option<int>) {
    && w.clock(n + 1) < aggregate && w.clock(n + 2) < aggregate
    && (capMs.Some? ==> w.clock(n + 1) < w.clock(n) + capMs.value * NS_PER_MS)
  }

  // Why a stage ends without its value: no time left to begin with, what the runner raised,
  // or too late a return.
  ghost function WhyNot<T>(w: World, n: nat, aggregate: int, capMs: Option<int>, stage: Stage, ended: Ended<T>): Reason {
    if !OpensInTime(w, n, aggregate, capMs) then TimeoutReason(stage)
    else
      match ended
      case RaisedLoadShed => ShedLoad
      case RaisedResource => ResourceError
      case RaisedOther => InternalError
      case _ => TimeoutReason(stage)
  }

  lemma StageEndsExactly<T>(w: World, n: nat, aggregate: int, capMs: Option<int>, stage: Stage, ended: Ended<T>)
    ensures var end := StageRun(w, n, aggregate, capMs, stage, ended).0;
            var opens := OpensInTime(w, n, aggregate, capMs);
            && (end.Value? <==> opens && ended.Returned? && ChecksInTime(w, n, aggregate, capMs))
            && (end.Raised? <==> opens && ended.RaisedCongine?)
            && (end.Value? ==> end.value == ended.value)
            && (end.Abandoned? ==> end.reason == WhyNot(w, n, aggregate, capMs, stage, ended))
    ensures StageRun(w, n, aggregate, capMs, stage, ended).0.Value? ==>
              StageRun(w, n, aggregate, capMs, stage, ended).2 == n + 3
  {
    AMillisecondLeft(StageDeadline(aggregate, w.clock(n), capMs), w.clock(n));
  }

  lemma AMillisecondLeft(deadline: int, now: int)
    ensures WaitMs(deadline, now) > 0 <==> now + NS_PER_MS <= deadline
  {
  }

  // The native stage reads the clock second, third and fourth.
  ghost predicate NativeInTime(cfg: Settings, w: World) {
    var aggregate := w.clock(0) + cfg.timeoutMs * NS_PER_MS;
    w.native.Returned? && OpensInTime(w, 1, aggregate, cfg.nativeMs) && ChecksInTime(w, 1, aggregate, cfg.nativeMs)
  }

  // The semantic stage is opened after one more look at the aggregate deadline.
  ghost predicate SemanticInTime(cfg: Settings, w: World) {
    var aggregate := w.clock(0) + cfg.timeoutMs * NS_PER_MS;
    && w.semantic.Returned? && w.clock(4) < aggregate
    && OpensInTime(w, 5, aggregate, cfg.semanticMs) && ChecksInTime(w, 5, aggregate, cfg.semanticMs)
  }

  // How a measured call ends, by the readings of the clock and what the runner did: the
  // native stage decides alone when it fails, is late, or degraded; then there may be no
  // semantic stage, no time for one, or one with an end of its own.
  ghost function Expected(cfg: Settings, w: World): Option<ValidationResult> {
    var aggregate := w.clock(0) + cfg.timeoutMs * NS_PER_MS;
    if OpensInTime(w, 1, aggregate, cfg.nativeMs) && w.native.RaisedCongine? then None
    else if !NativeInTime(cfg, w) then
      Some(DegradedResult(WhyNot(w, 1, aggregate, cfg.nativeMs, Native, w.native), Some(Native)))
    else if w.native.value.degraded then Some(w.native.value)
    else if !cfg.hasSemantic then Some(w.native.value.(stage := Some(Native)))
    else if w.clock(4) >= aggregate then Some(DegradedResult(SemanticTimeout, Some(Semantic)))
    else if OpensInTime(w, 5, aggregate, cfg.semanticMs) && w.semantic.RaisedCongine? then None
    else if !SemanticInTime(cfg, w) then
      Some(DegradedResult(WhyNot(w, 5, aggregate, cfg.semanticMs, Semantic, w.semantic), Some(Semantic)))
    else
      var breaches := w.native.value.breaches + w.semantic.value;
      Some(ValidationResult(if breaches == [] then Pass else Fail, breaches, false, w.native.value.reason, Some(Semantic)))
  }

  lemma VerdictExactly(cfg: Settings, w: World)
    requires Measured(cfg, w)
    ensures Verdict(Execute(cfg, w).outcome) == Expected(cfg, w)
    ensures Expected(cfg, w).None? ==> Execute(cfg, w).outcome == Propagated
  {
    hide StageRun, OpensInTime, ChecksInTime, WhyNot;
    var aggregate := w.clock(0) + cfg.timeoutMs * NS_PER_MS;
    StageEndsExactly(w, 1, aggregate, cfg.nativeMs, Native, w.native);
    StageEndsExactly(w, 5, aggregate, cfg.semanticMs, Semantic, w.semantic);
  }

  // The native validator's degraded result, returned in time.
  ghost predicate NativeDegradedInTime(cfg: Settings, w: World) {
    NativeInTime(cfg, w) && w.native.value.degraded
  }

  // A pass never comes from an input that was not measured, nor from a stage that was late.
  // One that is not degraded means every wired stage was evaluated in time and found
  // nothing; a degraded one is exactly a degraded pass of the native validator itself.
  lemma PassMeansEvaluated(cfg: Settings, w: World)
    requires Verdict(Execute(cfg, w).outcome).Some? && Verdict(Execute(cfg, w).outcome).value.status == Pass
    ensures var e := Execute(cfg, w);
            var r := Verdict(e.outcome).value;
            && Measured(cfg, w)
            && (if r.degraded then NativeDegradedInTime(cfg, w) && r == w.native.value
                else Judged(cfg, w, e)
                     && (cfg.hasSemantic ==> w.native.value.breaches == [] && w.semantic.value == [])
                     && (!cfg.hasSemantic ==> w.native.value.status == Pass))
  {
    hide StageRun, OpensInTime, ChecksInTime, WhyNot;
    assert Measured(cfg, w);
    NoLateVerdict(cfg, w);
    VerdictExactly(cfg, w);
    var aggregate := w.clock(0) + cfg.timeoutMs * NS_PER_MS;
    StageRunIsBounded(w, 1, aggregate, cfg.nativeMs, Native, w.native);
    var n := StageRun(w, 1, aggregate, cfg.nativeMs, Native, w.native).2;
    StageRunIsBounded(w, n + 1, aggregate, cfg.semanticMs, Semantic, w.semantic);
  }

  // The use case never turns a pass into a degraded one, and never drops a degraded pass
  // the native validator returned in time, semantic stage or not.
  lemma DegradedPassExactlyWhen(cfg: Settings, w: World)
    ensures var v := Verdict(Execute(cfg, w).outcome);
            v.Some? && v.value.degraded && v.value.status == Pass
            <==> Measured(cfg, w) && NativeDegradedInTime(cfg, w) && w.native.value.status == Pass
  {
    hide NativeStage, OpensInTime, ChecksInTime, WhyNot;
    if Measured(cfg, w) {
      VerdictExactly(cfg, w);
    }
  }

  // With a clock that never runs backwards, an enforced two-stage verdict was reached in
  // order and entirely inside the aggregate budget.
  lemma EnforcedInsideTheBudget(cfg: Settings, w: World)
    requires Measured(cfg, w) && NeverBackwards(w.clock) && Enforced(Execute(cfg, w))
    ensures var stages := Execute(cfg, w).stages;
            && (forall i :: 0 <= i < |stages| ==> w.clock(0) <= stages[i].openedAt && InSequence(stages[i]))
            && (forall i :: 0 <= i < |stages| ==> stages[i].aggregateCheck.Some?)
            && (forall i :: 0 <= i < |stages| ==> stages[i].aggregateCheck.value - w.clock(0) < cfg.timeoutMs * NS_PER_MS)
            && (|stages| == 2 ==> stages[0].aggregateCheck.value <= stages[1].openedAt)
  {
    hide StageRun, InSequence;
    NoLateVerdict(cfg, w);
    var aggregate := w.clock(0) + cfg.timeoutMs * NS_PER_MS;
    StageRunIsBounded(w, 1, aggregate, cfg.nativeMs, Native, w.native);
    var n := StageRun(w, 1, aggregate, cfg.nativeMs, Native, w.native).2;
    StageRunIsBounded(w, n + 1, aggregate, cfg.semanticMs, Semantic, w.semantic);
  }

  // The merge recomputes the status from the breaches: it can never turn a failed native
  // stage into a pass exactly when a native failure always comes with a breach.
  lemma MergeRespectsNative(native: ValidationResult)
    ensures (forall semantic :: Merged(native, semantic).status == Pass ==> native.status == Pass)
       <==> (native.status == Fail ==> native.breaches != [])
    ensures forall semantic :: Merged(native, semantic).status == Pass <==> native.breaches == [] && semantic == []
  {
    assert Merged(native, []).breaches == native.breaches;
  }

  // The event of a verdict: its status, its breaches sanitised one by one, and the reason and
  // stage of a degraded one.
  ghost predicate Tells(w: World, event: Event, r: ValidationResult) {
    && event.status == r.status && |event.breaches| == |r.breaches|
    && (forall i :: 0 <= i < |r.breaches| ==> event.breaches[i] == w.sanitize(r.breaches[i]))
    && (if r.degraded then event.reason == r.reason && event.stage == r.stage
        else event.reason == None && event.stage == None)
  }

  ghost predicate Announced(cfg: Settings, w: World, e: Execution) {
    match Verdict(e.outcome)
    case None => e.events == []
    case Some(r) =>
      && |e.events| == 1 && Tells(w, e.events[0], r)
      && (e.outcome.ValidationError? <==> cfg.failMode == Strict && r.status == Fail)
  }

  // Every execution that ends in a verdict publishes exactly one event, which tells that
  // verdict, before it returns or raises, and it raises exactly for a failing verdict in
  // strict mode; one that ends without a verdict publishes none.
  lemma OneEventPerVerdict(cfg: Settings, w: World)
    ensures Announced(cfg, w, Execute(cfg, w))
  {
    hide Announced, Finalized, NativeStage;
    SilentIsAnnounced(cfg, w, []);
    if PayloadProblem(cfg, w).Some? {
      FinalizedIsAnnounced(cfg, w, PayloadProblem(cfg, w).value, []);
    } else if SchemaProblem(cfg, w).Some? {
      FinalizedIsAnnounced(cfg, w, SchemaProblem(cfg, w).value, []);
    }
    NativeIsAnnounced(cfg, w, w.clock(0) + cfg.timeoutMs * NS_PER_MS);
  }

  lemma NativeIsAnnounced(cfg: Settings, w: World, aggregate: int)
    ensures Announced(cfg, w, NativeStage(cfg, w, aggregate))
  {
    hide Announced, Finalized, StageRun, SemanticStage;
    var (end, record, n) := StageRun(w, 1, aggregate, cfg.nativeMs, Native, w.native);
    match end
    case Raised => SilentIsAnnounced(cfg, w, [record]);
    case Abandoned(reason) => FinalizedIsAnnounced(cfg, w, DegradedResult(reason, Some(Native)), [record]);
    case Value(native) =>
      FinalizedIsAnnounced(cfg, w, native, [record]);
      FinalizedIsAnnounced(cfg, w, native.(stage := Some(Native)), [record]);
      FinalizedIsAnnounced(cfg, w, DegradedResult(SemanticTimeout, Some(Semantic)), [record]);
      SemanticIsAnnounced(cfg, w, aggregate, native, record, n + 1);
  }

  lemma SemanticIsAnnounced(cfg: Settings, w: World, aggregate: int, native: ValidationResult, first: StageRecord, n: nat)
    ensures Announced(cfg, w, SemanticStage(cfg, w, aggregate, native, first, n))
  {
    hide Announced, Finalized, StageRun, Merged;
    var (end, record, _) := StageRun(w, n, aggregate, cfg.semanticMs, Semantic, w.semantic);
    match end
    case Raised => SilentIsAnnounced(cfg, w, [first, record]);
    case Abandoned(reason) => FinalizedIsAnnounced(cfg, w, DegradedResult(reason, Some(Semantic)), [first, record]);
    case Value(breaches) => FinalizedIsAnnounced(cfg, w, Merged(native, breaches), [first, record]);
  }

  lemma FinalizedIsAnnounced(cfg: Settings, w: World, r: ValidationResult, stages: seq<StageRecord>)
    ensures Announced(cfg, w, Finalized(cfg, w, r, stages))
  {
    SanitizedLength(w, r.breaches);
  }

  lemma SilentIsAnnounced(cfg: Settings, w: World, stages: seq<StageRecord>)
    ensures Announced(cfg, w, Execution(NotFound, [], stages)) && Announced(cfg, w, Execution(Propagated, [], stages))
  {
  }

  // An input that is not measured and in bounds ends the call before any stage: the payload
  // is looked at first, then whether there is a schema, then the schema.
  lemma UnmeasuredExactly(cfg: Settings, w: World)
    requires !Measured(cfg, w)
    ensures Execute(cfg, w).stages == []
    ensures Execute(cfg, w).outcome == NotFound
       <==> w.payloadSize.Some? && w.payloadSize.value <= cfg.maxPayloadBytes && !w.schemaFound
    ensures Execute(cfg, w).outcome != NotFound ==>
              var payload := w.payloadSize.None? || w.payloadSize.value > cfg.maxPayloadBytes;
              var size := if payload then w.payloadSize else w.schemaSize;
              var r := Verdict(Execute(cfg, w).outcome);
              if size.None? then r == Some(DegradedResult(if payload then InvalidPayload else InvalidContract, None))
              else
                && r.Some? && r.value.status == Fail && !r.value.degraded && |r.value.breaches| == 1
                && r.value.breaches[0].rule == "INPUT_BOUNDS"
                && r.value.breaches[0].field == (if payload then "<root>" else "<schema>")
  {
  }

  lemma {:induction false} SanitizedLength(w: World, breaches: seq<Breach>)
    ensures |Sanitized(w, breaches)| == |breaches|
    ensures forall i :: 0 <= i < |breaches| ==> Sanitized(w, breaches)[i] == w.sanitize(breaches[i])
  {
    if breaches != [] {
      SanitizedLength(w, breaches[..|breaches| - 1]);
    }
  }

  // A degraded verdict of the use case carries no breaches and says exactly why: an input
  // that could not be measured has no stage, a stage that was abandoned is named with what
  // abandoned it, and the one other degraded verdict is the native validator's own.
  lemma ReasonNamesTheStage(cfg: Settings, w: World)
    requires Verdict(Execute(cfg, w).outcome).Some? && Verdict(Execute(cfg, w).outcome).value.degraded
    ensures var r := Verdict(Execute(cfg, w).outcome).value;
            var aggregate := w.clock(0) + cfg.timeoutMs * NS_PER_MS;
            if w.payloadSize.None? then r == DegradedResult(InvalidPayload, None)
            else if w.schemaSize.None? then r == DegradedResult(InvalidContract, None)
            else if NativeDegradedInTime(cfg, w) then r == w.native.value
            else if !NativeInTime(cfg, w) then
              r == DegradedResult(WhyNot(w, 1, aggregate, cfg.nativeMs, Native, w.native), Some(Native))
            else
              cfg.hasSemantic &&
              r == DegradedResult(if w.clock(4) >= aggregate then SemanticTimeout
                                  else WhyNot(w, 5, aggregate, cfg.semanticMs, Semantic, w.semantic), Some(Semantic))
  {
    hide NativeStage, OpensInTime, ChecksInTime, WhyNot;
    if w.payloadSize.Some? && w.schemaSize.Some? {
      assert Measured(cfg, w);
      VerdictExactly(cfg, w);
    }
  }
}
