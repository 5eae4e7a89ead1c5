// circuit_breaker.py: CLOSED, OPEN and HALF_OPEN with a single probe, under any order of
// calls, late records included. Each call reads the clock once, under the lock.
module CircuitBreaker {

  datatype Status = CLOSED | OPEN | HALF_OPEN

  datatype Settings = Settings(threshold: nat, cooldown: real)

  datatype Breaker = Breaker(status: Status, failures: nat, openedAt: real, probing: bool)

  datatype Call = Allow | RecordSuccess | RecordFailure | ReadState

  function Fresh(): Breaker {
    Breaker(CLOSED, 0, 0.0, false)
  }

  // _maybe_half_open_locked.
  function Cooled(cfg: Settings, b: Breaker, now: real): Breaker {
    if b.status == OPEN && now - b.openedAt >= cfg.cooldown then b.(status := HALF_OPEN, probing := false) else b
  }

  function AfterAllow(cfg: Settings, b: Breaker, now: real): (Breaker, bool) {
    var c := Cooled(cfg, b, now);
    if c.status == CLOSED then (c, true)
    else if c.status == OPEN || c.probing then (c, false)
    else (c.(probing := true), true)
  }

  function AfterFailure(cfg: Settings, b: Breaker, now: real): Breaker {
    if b.status == HALF_OPEN then b.(status := OPEN, openedAt := now, probing := false)
    else if b.failures + 1 >= cfg.threshold then Breaker(OPEN, b.failures + 1, now, false)
    else b.(failures := b.failures + 1, probing := false)
  }

  function After(cfg: Settings, b: Breaker, call: Call, now: real): Breaker {
    match call
    case Allow => AfterAllow(cfg, b, now).0
    case RecordSuccess => Fresh()
    case RecordFailure => AfterFailure(cfg, b, now)
    case ReadState => Cooled(cfg, b, now)
  }

  class CircuitBreakerObject {
    const failureThreshold: nat
    const cooldownSeconds: real
    var state: Status
    var consecutiveFailures: nat
    var openedAt: real
    var probeInFlight: bool

    ghost function View(): Breaker
      reads this
    {
      Breaker(state, consecutiveFailures, openedAt, probeInFlight)
    }

    function Config(): Settings {
      Settings(failureThreshold, cooldownSeconds)
    }

    constructor (failureThreshold: nat, cooldownSeconds: real)
      requires failureThreshold > 0 && cooldownSeconds >= 0.0
      ensures View() == Fresh() && Config() == Settings(failureThreshold, cooldownSeconds)
    {
      this.failureThreshold, this.cooldownSeconds := failureThreshold, cooldownSeconds;
      state, consecutiveFailures, openedAt, probeInFlight := CLOSED, 0, 0.0, false;
    }

    method MaybeHalfOpen(now: real)
      modifies this
      ensures View() == Cooled(Config(), old(View()), now)
    {
      if state != OPEN {
        return;
      }
      if now - openedAt >= cooldownSeconds {
        state := HALF_OPEN;
        probeInFlight := false;
      }
    }

    method State(now: real) returns (current: Status)
      modifies this
      ensures View() == After(Config(), old(View()), ReadState, now) && current == state
    {
      MaybeHalfOpen(now);
      current := state;
    }

    method AllowCall(now: real) returns (allowed: bool)
      modifies this
      ensures (View(), allowed) == AfterAllow(Config(), old(View()), now)
    {
      MaybeHalfOpen(now);
      if state == CLOSED {
        return true;
      }
      if state == OPEN {
        return false;
      }
      if probeInFlight {
        return false;
      }
      probeInFlight := true;
      allowed := true;
    }

    method Succeeded(now: real)
      modifies this
      ensures View() == After(Config(), old(View()), RecordSuccess, now)
    {
      state, consecutiveFailures, openedAt, probeInFlight := CLOSED, 0, 0.0, false;
    }

    method Failed(now: real)
      modifies this
      ensures View() == After(Config(), old(View()), RecordFailure, now)
    {
      probeInFlight := false;
      if state == HALF_OPEN {
        state := OPEN;
        openedAt := now;
        return;
      }
      consecutiveFailures := consecutiveFailures + 1;
      if consecutiveFailures >= failureThreshold {
        state := OPEN;
        openedAt := now;
      }
    }
  }

  // ------------------------------------------------------------------------------
  // Whole runs
  // ------------------------------------------------------------------------------

  datatype Timed = Timed(call: Call, now: real)

  function Run(cfg: Settings, start: Breaker, calls: seq<Timed>): Breaker {
    if calls == [] then start
    else After(cfg, Run(cfg, start, calls[..|calls| - 1]), calls[|calls| - 1].call, calls[|calls| - 1].now)
  }

  ghost predicate Clocked(calls: seq<Timed>, from: real) {
    && (forall i :: 0 <= i < |calls| ==> from <= calls[i].now)
    && (forall i, j :: 0 <= i < j < |calls| ==> calls[i].now <= calls[j].now)
  }

  // Failures recorded since the last success.
  function FailuresSince(calls: seq<Timed>): nat {
    if calls == [] then 0
    else
      match calls[|calls| - 1].call
      case RecordSuccess => 0
      case RecordFailure => FailuresSince(calls[..|calls| - 1]) + 1
      case _ => FailuresSince(calls[..|calls| - 1])
  }

  // The breaker is CLOSED exactly when fewer failures than the threshold have been recorded
  // since the last success, and only a half-open breaker has a probe out.
  lemma {:induction false} ClosedExactlyBelowThreshold(cfg: Settings, calls: seq<Timed>)
    requires cfg.threshold > 0
    ensures var b := Run(cfg, Fresh(), calls);
            && (b.status == CLOSED <==> FailuresSince(calls) < cfg.threshold)
            && (b.status == CLOSED <==> b.failures < cfg.threshold)
            && (b.status == CLOSED ==> b.failures == FailuresSince(calls))
            && b.failures <= FailuresSince(calls)
            && (b.probing ==> b.status == HALF_OPEN)
  {
    if calls != [] {
      ClosedExactlyBelowThreshold(cfg, calls[..|calls| - 1]);
    }
  }

  predicate IsRecord(call: Call) {
    call == RecordSuccess || call == RecordFailure
  }

  // When the last success or failure was recorded.
  function LastRecord(calls: seq<Timed>): real {
    if calls == [] then 0.0
    else if IsRecord(calls[|calls| - 1].call) then calls[|calls| - 1].now
    else LastRecord(calls[..|calls| - 1])
  }

  // Since the last record some call found the cooldown over.
  predicate Ripened(cfg: Settings, calls: seq<Timed>) {
    calls != [] &&
    var rest, last := calls[..|calls| - 1], calls[|calls| - 1];
    !IsRecord(last.call) && (Ripened(cfg, rest) || last.now - LastRecord(rest) >= cfg.cooldown)
  }

  // And some call asked for admission then.
  predicate Probed(cfg: Settings, calls: seq<Timed>) {
    calls != [] &&
    var rest, last := calls[..|calls| - 1], calls[|calls| - 1];
    !IsRecord(last.call) && (Probed(cfg, rest) || (last.call == Allow && Ripened(cfg, calls)))
  }

  // The state of the breaker, read off the history alone.
  lemma {:induction false} StatusIsHistory(cfg: Settings, calls: seq<Timed>)
    requires cfg.threshold > 0
    ensures var b := Run(cfg, Fresh(), calls);
            && b.status == (if FailuresSince(calls) < cfg.threshold then CLOSED
                            else if Ripened(cfg, calls) then HALF_OPEN else OPEN)
            && (b.status != CLOSED ==> b.openedAt == LastRecord(calls))
            && (b.probing <==> b.status == HALF_OPEN && Probed(cfg, calls))
            && (Probed(cfg, calls) ==> Ripened(cfg, calls))
  {
    if calls != [] {
      var rest := calls[..|calls| - 1];
      StatusIsHistory(cfg, rest);
      ClosedExactlyBelowThreshold(cfg, rest);
    }
  }

  // A call is let through exactly when fewer failures than the threshold were recorded since
  // the last success, or the cooldown since the last failure is over and nobody has been let
  // through since.
  lemma AllowedExactlyWhen(cfg: Settings, calls: seq<Timed>, now: real)
    requires cfg.threshold > 0
    ensures AfterAllow(cfg, Run(cfg, Fresh(), calls), now).1
       <==> || FailuresSince(calls) < cfg.threshold
            || (!Probed(cfg, calls) && (Ripened(cfg, calls) || now - LastRecord(calls) >= cfg.cooldown))
  {
    StatusIsHistory(cfg, calls);
  }

  function Admitted(cfg: Settings, start: Breaker, calls: seq<Timed>): seq<real> {
    if calls == [] then []
    else
      var rest, last := calls[..|calls| - 1], calls[|calls| - 1];
      Admitted(cfg, start, rest) +
      (if last.call == Allow && AfterAllow(cfg, Run(cfg, start, rest), last.now).1 then [last.now] else [])
  }

  // Between a trip and the next record, at most one call is let through, and only once
  // the cooldown has passed.
  lemma {:induction false} OneProbePerTrip(cfg: Settings, tripped: Breaker, calls: seq<Timed>)
    requires tripped.status == OPEN && !tripped.probing
    requires forall i :: 0 <= i < |calls| ==> calls[i].call == Allow || calls[i].call == ReadState
    ensures |Admitted(cfg, tripped, calls)| <= 1
    ensures var b := Run(cfg, tripped, calls);
            && b.status != CLOSED && b.openedAt == tripped.openedAt && b.failures == tripped.failures
            && (b.status == OPEN ==> Admitted(cfg, tripped, calls) == [] && !b.probing)
            && (b.status == HALF_OPEN ==>
                  (b.probing <==> Admitted(cfg, tripped, calls) != [])
                  && exists i :: 0 <= i < |calls| && calls[i].now - tripped.openedAt >= cfg.cooldown)
  {
    if calls != [] {
      var rest, last := calls[..|calls| - 1], calls[|calls| - 1];
      OneProbePerTrip(cfg, tripped, rest);
      if Run(cfg, tripped, rest).status == HALF_OPEN {
        var i :| 0 <= i < |rest| && rest[i].now - tripped.openedAt >= cfg.cooldown;
        assert calls[i] == rest[i];
      } else if last.now - tripped.openedAt >= cfg.cooldown {
        assert calls[|calls| - 1].now - tripped.openedAt >= cfg.cooldown;
      }
    }
  }

  // With a clock that never runs back the one admitted call is itself past the cooldown.
  lemma {:induction false} ProbeWaitsForTheCooldown(cfg: Settings, tripped: Breaker, calls: seq<Timed>)
    requires tripped.status == OPEN && !tripped.probing && Clocked(calls, tripped.openedAt)
    requires forall i :: 0 <= i < |calls| ==> calls[i].call == Allow || calls[i].call == ReadState
    ensures forall t :: t in Admitted(cfg, tripped, calls) ==> t >= tripped.openedAt + cfg.cooldown
  {
    if calls != [] {
      var rest, last := calls[..|calls| - 1], calls[|calls| - 1];
      ProbeWaitsForTheCooldown(cfg, tripped, rest);
      OneProbePerTrip(cfg, tripped, rest);
      if Run(cfg, tripped, rest).status == HALF_OPEN {
        var i :| 0 <= i < |rest| && rest[i].now - tripped.openedAt >= cfg.cooldown;
        assert calls[i] == rest[i] && calls[i].now <= last.now;
      }
    }
  }

  // A half-open breaker whose probe never records stays half open and lets nothing through.
  lemma {:induction false} SilentProbeBlocksForever(cfg: Settings, b: Breaker, calls: seq<Timed>)
    requires b.status == HALF_OPEN && b.probing
    requires forall i :: 0 <= i < |calls| ==> calls[i].call == Allow || calls[i].call == ReadState
    ensures Run(cfg, b, calls) == b && Admitted(cfg, b, calls) == []
  {
    if calls != [] {
      SilentProbeBlocksForever(cfg, b, calls[..|calls| - 1]);
    }
  }

  // It stays half open throughout exactly while nothing is recorded: any record, success or
  // failure, ends it at once.
  lemma HalfOpenExactlyUntilARecord(cfg: Settings, b: Breaker, calls: seq<Timed>)
    requires b.status == HALF_OPEN && b.probing
    ensures (forall n :: 0 <= n <= |calls| ==> Run(cfg, b, calls[..n]).status == HALF_OPEN)
       <==> forall i :: 0 <= i < |calls| ==> !IsRecord(calls[i].call)
  {
    if forall i :: 0 <= i < |calls| ==> !IsRecord(calls[i].call) {
      forall n | 0 <= n <= |calls| ensures Run(cfg, b, calls[..n]).status == HALF_OPEN {
        SilentProbeBlocksForever(cfg, b, calls[..n]);
      }
    } else {
      var i :| 0 <= i < |calls| && IsRecord(calls[i].call);
      assert calls[..i + 1][..i] == calls[..i];
      if Run(cfg, b, calls[..i]).status == HALF_OPEN {
        assert Run(cfg, b, calls[..i + 1]).status != HALF_OPEN;
      }
    }
  }

  // A failure recorded late, while the breaker is already open, restarts the cooldown.
  lemma LateFailureRestartsTheCooldown(cfg: Settings, calls: seq<Timed>, late: real, now: real)
    requires cfg.threshold > 0 && Run(cfg, Fresh(), calls).status == OPEN
    ensures var b := Run(cfg, Fresh(), calls + [Timed(RecordFailure, late)]);
            b.status == OPEN && (AfterAllow(cfg, b, now).1 <==> now - late >= cfg.cooldown)
  {
    ClosedExactlyBelowThreshold(cfg, calls);
    assert (calls + [Timed(RecordFailure, late)])[..|calls|] == calls;
  }
}
