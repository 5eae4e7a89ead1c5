// langchain_handler.py: which text may ever reach the use case.
//
// Inspecting a host's message yields a text or a refusal reason; everything after that
// inspection is here. Callbacks of different runs interleave freely, and each one touches
// the run table once, under the handler's lock, so a history is a sequence of callbacks.
module StreamHandler {
  import opened Options

  datatype Reason =
    | MissingRunId | UnhashableRunId
    | NonTextStreamToken | UnsupportedStreamChunk | StreamTokenChunkMismatch | StreamBufferExceeded
    | MissingFinalResponse | MalformedFinalResponse | NoGeneration | MultipleGenerationGroups | MultipleGenerations
    | NonTextContent | TextMessageMismatch | ToolOrActionContent | UnsupportedMessageMetadata
    | OutputTruncated | OutputIncomplete | UnknownTermination | StreamFinalMismatch

  // What inspecting a token and its chunk, or a final response, comes to.
  datatype Inspected = Text(text: string) | Refuse(reason: Reason)

  datatype RunId = NoId | Unhashable | Id(key: string)

  datatype Event =
    | TokenEvent(run: RunId, seen: Inspected)
    | EndEvent(run: RunId, final: Inspected)
    | ErrorEvent(run: RunId)

  // What the host sees: nothing, a refusal, or one evaluation of a text.
  datatype Outcome = Silent | Raise(reason: Reason) | Evaluate(key: string, text: string)

  // ------------------------------------------------------------------------------
  // The table of runs
  // ------------------------------------------------------------------------------

  datatype Run = Run(parts: seq<string>, refusal: Option<Reason>)

  function Joined(parts: seq<string>): string {
    if parts == [] then "" else Joined(parts[..|parts| - 1]) + parts[|parts| - 1]
  }

  const NEW_RUN := Run([], None)

  function Refused(run: Run, reason: Reason): Run {
    Run([], if run.refusal.Some? then run.refusal else Some(reason))
  }

  function Observe(limit: nat, run: Run, seen: Inspected): Run {
    match seen
    case Refuse(reason) => Refused(run, reason)
    case Text(token) =>
      if run.refusal.Some? then run
      else if |Joined(run.parts)| + |token| > limit then Refused(run, StreamBufferExceeded)
      else Run(run.parts + [token], None)
  }

  function Entry(runs: map<string, Run>, key: string): Option<Run> {
    if key in runs then Some(runs[key]) else None
  }

  function IdFault(run: RunId): Reason {
    if run.NoId? then MissingRunId else UnhashableRunId
  }

  // What on_llm_end makes of a popped run and the final response.
  function Finish(key: string, popped: Option<Run>, final: Inspected): Outcome {
    if popped.Some? && popped.value.refusal.Some? then Raise(popped.value.refusal.value)
    else
      match final
      case Refuse(reason) => Raise(reason)
      case Text(text) =>
        if popped.Some? && Joined(popped.value.parts) != text then Raise(StreamFinalMismatch)
        else Evaluate(key, text)
  }

  function Step(limit: nat, runs: map<string, Run>, event: Event): (map<string, Run>, Outcome) {
    match event
    case TokenEvent(Id(key), seen) =>
      var run := Observe(limit, Entry(runs, key).GetOr(NEW_RUN), seen);
      (runs[key := run], if run.refusal.Some? then Raise(run.refusal.value) else Silent)
    case EndEvent(Id(key), final) => (runs - {key}, Finish(key, Entry(runs, key), final))
    case ErrorEvent(Id(key)) => (runs - {key}, Silent)
    case TokenEvent(run, _) => (runs, Raise(IdFault(run)))
    case EndEvent(run, _) => (runs, Raise(IdFault(run)))
    case ErrorEvent(_) => (runs, Silent)
  }

  // ------------------------------------------------------------------------------
  // The handler
  // ------------------------------------------------------------------------------

  datatype Status = CollectingText | RefusedStatus

  class RunState {
    var parts: seq<string>
    var length: int
    var status: Status
    var refusalReason: Option<Reason>

    ghost predicate Valid()
      reads this
    {
      length == |Joined(parts)| && (status.RefusedStatus? <==> refusalReason.Some?)
    }

    ghost function Value(): Run
      reads this
    {
      Run(parts, refusalReason)
    }

    constructor ()
      ensures Valid() && Value() == NEW_RUN
    {
      parts, length, status, refusalReason := [], 0, CollectingText, None;
    }

    // _refuse_locked.
    method RefuseLocked(reason: Reason) returns (standing: Reason)
      modifies this
      ensures Valid() && Value() == Refused(old(Value()), reason) && Some(standing) == refusalReason
    {
      if refusalReason.None? {
        refusalReason := Some(reason);
      }
      status, parts, length := RefusedStatus, [], 0;
      standing := refusalReason.value;
    }

    method Append(token: string)
      requires Valid()
      modifies this
      ensures Valid() && Value() == old(Value()).(parts := old(parts) + [token])
    {
      assert (parts + [token])[..|parts|] == parts;
      parts, length := parts + [token], length + |token|;
    }

    // The part of _collect_token under the lock; the standing refusal, if any.
    method Collect(limit: nat, seen: Inspected) returns (standing: Option<Reason>)
      requires Valid()
      modifies this
      ensures Valid() && Value() == Observe(limit, old(Value()), seen) && standing == Value().refusal
    {
      hide Joined;
      if seen.Refuse? {
        var first := RefuseLocked(seen.reason);
        standing := Some(first);
      } else if refusalReason.Some? {
        standing := refusalReason;
      } else if length + |seen.text| > limit {
        var first := RefuseLocked(StreamBufferExceeded);
        standing := Some(first);
      } else {
        Append(seen.text);
        standing := None;
      }
    }
  }

  lemma OneRunGone(now: map<string, Run>, before: map<string, Run>, key: string)
    requires now.Keys == before.Keys - {key} && forall k :: k in now ==> now[k] == before[k]
    ensures now == before - {key}
  {
  }

  lemma OneRunChanged(now: map<string, Run>, before: map<string, Run>, key: string, run: Run)
    requires now.Keys == before.Keys + {key} && now[key] == run
    requires forall k :: k in now && k != key ==> now[k] == before[k]
    ensures now == before[key := run]
  {
  }

  class CongineCallbackHandler {
    const maxBufferChars: nat
    var runs: map<string, RunState>

    ghost predicate Valid()
      reads this, set k | k in runs :: runs[k]
    {
      && (forall k :: k in runs ==> runs[k].Valid())
      && (forall j, k :: j in runs && k in runs && j != k ==> runs[j] != runs[k])
    }

    ghost function Table(): map<string, Run>
      reads this, set k | k in runs :: runs[k]
    {
      map k | k in runs :: runs[k].Value()
    }

    constructor (maxBufferChars: nat)
      ensures Valid() && Table() == map[] && this.maxBufferChars == maxBufferChars
    {
      this.maxBufferChars, runs := maxBufferChars, map[];
    }

    // runs.setdefault(key, _RunState())
    method SetDefault(key: string) returns (state: RunState)
      requires Valid()
      modifies this
      ensures Valid() && key in runs && runs[key] == state
      ensures forall k :: k in runs <==> k in old(runs) || k == key
      ensures forall k :: k in old(runs) ==> runs[k] == old(runs)[k]
      ensures key !in old(runs) ==> fresh(state)
      ensures state.Value() == Entry(old(Table()), key).GetOr(NEW_RUN)
      ensures forall k :: k in old(runs) ==> runs[k].Value() == old(Table())[k]
    {
      if key !in runs {
        var created := new RunState();
        runs := runs[key := created];
      }
      state := runs[key];
    }

    // _collect_token.
    method CollectToken(key: string, seen: Inspected) returns (standing: Option<Reason>)
      requires Valid()
      modifies this, set k | k in runs :: runs[k]
      ensures Valid() && key in Table() && standing == Table()[key].refusal
      ensures Table() == old(Table())[key := Observe(maxBufferChars, Entry(old(Table()), key).GetOr(NEW_RUN), seen)]
    {
      hide Observe, Joined, RunState.Valid;
      var state := SetDefault(key);
      ghost var run := state.Value();
      label Before:
      standing := state.Collect(maxBufferChars, seen);
      forall k | k in runs && k != key ensures k in old(runs) && runs[k].Value() == old(Table())[k] && runs[k].Valid() {
        assert unchanged@Before(runs[k]);
      }
      assert state.Value() == Observe(maxBufferChars, run, seen);
      OneRunChanged(Table(), old(Table()), key, Observe(maxBufferChars, run, seen));
    }

    method OnLlmNewToken(run: RunId, seen: Inspected) returns (outcome: Outcome)
      requires Valid()
      modifies this, set k | k in runs :: runs[k]
      ensures Valid() && (Table(), outcome) == Step(maxBufferChars, old(Table()), TokenEvent(run, seen))
    {
      hide Observe, Valid;
      if !run.Id? {
        return Raise(IdFault(run));
      }
      var standing := CollectToken(run.key, seen);
      outcome := if standing.Some? then Raise(standing.value) else Silent;
    }

    // runs.pop(key, None)
    method Pop(key: string) returns (popped: RunState?)
      requires Valid()
      modifies this
      ensures Valid() && Table() == old(Table()) - {key}
      ensures popped == null <==> key !in old(Table())
      ensures popped != null ==> popped.Value() == old(Table())[key]
    {
      popped := if key in runs then runs[key] else null;
      hide RunState.Valid;
      runs := runs - {key};
      OneRunGone(Table(), old(Table()), key);
    }

    // _establish_completion: the run is popped first, whatever becomes of it.
    method OnLlmEnd(run: RunId, final: Inspected) returns (outcome: Outcome)
      requires Valid()
      modifies this
      ensures Valid() && (Table(), outcome) == Step(maxBufferChars, old(Table()), EndEvent(run, final))
    {
      hide Joined, Observe, Valid;
      if !run.Id? {
        return Raise(IdFault(run));
      }
      var popped := Pop(run.key);
      if popped != null && popped.refusalReason.Some? {
        return Raise(popped.refusalReason.value);
      }
      if final.Refuse? {
        return Raise(final.reason);
      }
      if popped != null && Joined(popped.parts) != final.text {
        return Raise(StreamFinalMismatch);
      }
      outcome := Evaluate(run.key, final.text);
    }

    method OnLlmError(run: RunId)
      requires Valid()
      modifies this
      ensures Valid() && (Table(), Silent) == Step(maxBufferChars, old(Table()), ErrorEvent(run))
    {
      if run.Id? {
        var popped := Pop(run.key);
      }
    }
  }

  // ------------------------------------------------------------------------------
  // Histories
  // ------------------------------------------------------------------------------

  function After(limit: nat, events: seq<Event>): map<string, Run> {
    if events == [] then map[] else Step(limit, After(limit, events[..|events| - 1]), events[|events| - 1]).0
  }

  // What the host sees when `event` follows the history.
  function Seen(limit: nat, events: seq<Event>, event: Event): Outcome {
    Step(limit, After(limit, events), event).1
  }

  // The observations of a run since it last ended or failed.
  function Since(events: seq<Event>, key: string): seq<Inspected> {
    if events == [] then []
    else
      var rest, last := Since(events[..|events| - 1], key), events[|events| - 1];
      if last.run != Id(key) then rest
      else if last.TokenEvent? then rest + [last.seen]
      else []
  }

  // The tokens among some observations, put together.
  function Streamed(observed: seq<Inspected>): string {
    if observed == [] then ""
    else
      var last := observed[|observed| - 1];
      Streamed(observed[..|observed| - 1]) + (if last.Text? then last.text else "")
  }

  ghost predicate AllText(observed: seq<Inspected>) {
    forall i :: 0 <= i < |observed| ==> observed[i].Text?
  }

  // The i-th observation is the first that cannot be accepted, for this reason.
  ghost predicate FirstFault(limit: nat, observed: seq<Inspected>, i: nat, reason: Reason) {
    && i < |observed|
    && AllText(observed[..i]) && |Streamed(observed[..i])| <= limit
    && match observed[i]
       case Refuse(r) => reason == r
       case Text(token) => reason == StreamBufferExceeded && |Streamed(observed[..i])| + |token| > limit
  }

  // A run's entry is a function of its own observations alone.
  ghost function Replay(limit: nat, observed: seq<Inspected>): Run {
    if observed == [] then NEW_RUN
    else Observe(limit, Replay(limit, observed[..|observed| - 1]), observed[|observed| - 1])
  }

  lemma StepEntry(limit: nat, runs: map<string, Run>, event: Event, key: string)
    ensures Entry(Step(limit, runs, event).0, key)
         == if event.run != Id(key) then Entry(runs, key)
            else if event.TokenEvent? then Some(Observe(limit, Entry(runs, key).GetOr(NEW_RUN), event.seen))
            else None
  {
    hide Observe, Finish;
  }

  lemma {:induction false} EntryIsReplay(limit: nat, events: seq<Event>, key: string)
    ensures Entry(After(limit, events), key)
         == if Since(events, key) == [] then None else Some(Replay(limit, Since(events, key)))
  {
    hide Step, Observe;
    if events != [] {
      EntryIsReplay(limit, events[..|events| - 1], key);
      StepEntry(limit, After(limit, events[..|events| - 1]), events[|events| - 1], key);
      var rest, last := Since(events[..|events| - 1], key), events[|events| - 1];
      if last.run == Id(key) && last.TokenEvent? {
        assert Since(events, key)[..|rest|] == rest;
      }
    }
  }

  lemma {:induction false} CleanReplay(limit: nat, observed: seq<Inspected>)
    ensures Replay(limit, observed).refusal.None? <==> AllText(observed) && |Streamed(observed)| <= limit
    ensures Replay(limit, observed).refusal.None? ==> Joined(Replay(limit, observed).parts) == Streamed(observed)
  {
    if observed != [] {
      var rest := observed[..|observed| - 1];
      CleanReplay(limit, rest);
      var before := Replay(limit, rest);
      if observed[|observed| - 1].Text? && before.refusal.None? {
        assert (before.parts + [observed[|observed| - 1].text])[..|before.parts|] == before.parts;
      }
    }
  }

  lemma {:induction false} FaultSticks(limit: nat, observed: seq<Inspected>, i: nat, reason: Reason)
    requires FirstFault(limit, observed, i, reason)
    ensures Replay(limit, observed).refusal == Some(reason)
    decreases |observed|
  {
    var n := |observed| - 1;
    assert observed[..n][..i] == observed[..i];
    if i == n {
      CleanReplay(limit, observed[..n]);
    } else {
      FaultSticks(limit, observed[..n], i, reason);
    }
  }

  // ------------------------------------------------------------------------------
  // The main results
  // ------------------------------------------------------------------------------

  // In every interleaving of runs, the end of a run evaluates a text exactly when that
  // text is the complete final response and the run's stream, if it had one, was all text
  // within the buffer limit and spells exactly that response.
  lemma EvaluatedExactly(limit: nat, events: seq<Event>, key: string, final: Inspected, text: string)
    ensures Seen(limit, events, EndEvent(Id(key), final)) == Evaluate(key, text)
       <==> && final == Text(text)
            && (Since(events, key) == []
                || (AllText(Since(events, key)) && Streamed(Since(events, key)) == text && |text| <= limit))
  {
    EntryIsReplay(limit, events, key);
    CleanReplay(limit, Since(events, key));
  }

  // Whatever text is evaluated, and whenever, it is such a text.
  lemma OnlyGovernedTextIsEvaluated(limit: nat, events: seq<Event>, event: Event)
    requires Seen(limit, events, event).Evaluate?
    ensures var Evaluate(key, text) := Seen(limit, events, event);
            && event == EndEvent(Id(key), Text(text))
            && AllText(Since(events, key))
            && (Since(events, key) != [] ==> Streamed(Since(events, key)) == text && |text| <= limit)
  {
    hide Observe, Entry, Finish;
    assert event.EndEvent? && event.run.Id?;
    EndEvaluatesItsOwn(limit, events, event.run.key, event.final);
    EvaluatedExactly(limit, events, event.run.key, event.final, Seen(limit, events, event).text);
  }

  lemma EndEvaluatesItsOwn(limit: nat, events: seq<Event>, key: string, final: Inspected)
    requires Seen(limit, events, EndEvent(Id(key), final)).Evaluate?
    ensures Seen(limit, events, EndEvent(Id(key), final)).key == key
  {
  }

  // Once an observation is refused, every later token of the run and its end raise that
  // first reason, until the run has ended or failed.
  lemma FirstReasonStands(limit: nat, events: seq<Event>, key: string, i: nat, reason: Reason, seen: Inspected, final: Inspected)
    requires FirstFault(limit, Since(events, key), i, reason)
    ensures Seen(limit, events, TokenEvent(Id(key), seen)) == Raise(reason)
    ensures Seen(limit, events, EndEvent(Id(key), final)) == Raise(reason)
  {
    EntryIsReplay(limit, events, key);
    FaultSticks(limit, Since(events, key), i, reason);
  }

  // A run that is refused has a first fault.
  lemma {:induction false} RefusedHasAFault(limit: nat, observed: seq<Inspected>) returns (i: nat)
    requires !AllText(observed) || |Streamed(observed)| > limit
    ensures exists reason :: FirstFault(limit, observed, i, reason)
    decreases |observed|
  {
    var n := |observed| - 1;
    if AllText(observed[..n]) && |Streamed(observed[..n])| <= limit {
      i := n;
      var reason := if observed[n].Refuse? then observed[n].reason else StreamBufferExceeded;
      assert FirstFault(limit, observed, i, reason);
    } else {
      i := RefusedHasAFault(limit, observed[..n]);
      var reason :| FirstFault(limit, observed[..n], i, reason);
      assert observed[..n][..i] == observed[..i];
      assert FirstFault(limit, observed, i, reason);
    }
  }

  // Nothing observed so far has to be refused.
  ghost predicate Sound(limit: nat, observed: seq<Inspected>) {
    AllText(observed) && |Streamed(observed)| <= limit
  }

  ghost predicate RaisesFirstFault(limit: nat, observed: seq<Inspected>, outcome: Outcome) {
    exists i, reason :: FirstFault(limit, observed, i, reason) && outcome == Raise(reason)
  }

  // What a callback answers after any history: a run that has no usable identity is refused
  // for that, an accepted token passes in silence, the first fault of a stream is raised from
  // then on, and an end raises the fault of its response or of the comparison, or evaluates.
  ghost predicate Answered(limit: nat, events: seq<Event>, event: Event, outcome: Outcome) {
    match event
    case ErrorEvent(_) => outcome == Silent
    case TokenEvent(Id(key), seen) =>
      var observed := Since(events, key) + [seen];
      if Sound(limit, observed) then outcome == Silent else RaisesFirstFault(limit, observed, outcome)
    case EndEvent(Id(key), final) =>
      var observed := Since(events, key);
      if !Sound(limit, observed) then RaisesFirstFault(limit, observed, outcome)
      else if final.Refuse? then outcome == Raise(final.reason)
      else if observed != [] && Streamed(observed) != final.text then outcome == Raise(StreamFinalMismatch)
      else outcome == Evaluate(key, final.text)
    case TokenEvent(run, _) => outcome == Raise(if run.NoId? then MissingRunId else UnhashableRunId)
    case EndEvent(run, _) => outcome == Raise(if run.NoId? then MissingRunId else UnhashableRunId)
  }

  lemma RefusedForItsFirstFault(limit: nat, observed: seq<Inspected>)
    requires !Sound(limit, observed)
    ensures Replay(limit, observed).refusal.Some?
    ensures RaisesFirstFault(limit, observed, Raise(Replay(limit, observed).refusal.value))
  {
    var i := RefusedHasAFault(limit, observed);
    var reason :| FirstFault(limit, observed, i, reason);
    FaultSticks(limit, observed, i, reason);
  }

  lemma AnsweredExactly(limit: nat, events: seq<Event>, event: Event)
    ensures Answered(limit, events, event, Seen(limit, events, event))
  {
    hide Observe, FirstFault, RaisesFirstFault;
    if event.run.Id? {
      var key := event.run.key;
      var before := Since(events, key);
      EntryIsReplay(limit, events, key);
      CleanReplay(limit, before);
      if !Sound(limit, before) {
        RefusedForItsFirstFault(limit, before);
      }
      if event.TokenEvent? {
        var observed := before + [event.seen];
        assert observed[..|before|] == before;
        CleanReplay(limit, observed);
        if !Sound(limit, observed) {
          RefusedForItsFirstFault(limit, observed);
        }
      }
    }
  }

  // Whatever arrives, a run holds no more text than the limit, and a refused one none at all.
  lemma {:induction false} HeldTextIsBounded(limit: nat, observed: seq<Inspected>)
    ensures |Joined(Replay(limit, observed).parts)| <= limit
    ensures Replay(limit, observed).refusal.Some? ==> Replay(limit, observed).parts == []
  {
    if observed != [] {
      var rest := observed[..|observed| - 1];
      HeldTextIsBounded(limit, rest);
      var parts := Replay(limit, rest).parts;
      if observed[|observed| - 1].Text? {
        assert (parts + [observed[|observed| - 1].text])[..|parts|] == parts;
      }
    }
  }

  lemma BuffersAreBounded(limit: nat, events: seq<Event>, key: string)
    requires key in After(limit, events)
    ensures |Joined(After(limit, events)[key].parts)| <= limit
    ensures After(limit, events)[key].refusal.Some? ==> After(limit, events)[key].parts == []
  {
    EntryIsReplay(limit, events, key);
    HeldTextIsBounded(limit, Since(events, key));
  }

  // The history of one run.
  function Only(events: seq<Event>, run: RunId): seq<Event> {
    if events == [] then []
    else Only(events[..|events| - 1], run) + (if events[|events| - 1].run == run then [events[|events| - 1]] else [])
  }

  lemma {:induction false} SinceIgnoresOthers(events: seq<Event>, key: string)
    ensures Since(Only(events, Id(key)), key) == Since(events, key)
  {
    if events != [] {
      SinceIgnoresOthers(events[..|events| - 1], key);
      var rest := Only(events[..|events| - 1], Id(key));
      if events[|events| - 1].run == Id(key) {
        assert Only(events, Id(key))[..|rest|] == rest;
      } else {
        assert Only(events, Id(key)) == rest;
      }
    }
  }

  // What a run's callback does is the same as if no other run existed.
  lemma RunsNeverMeet(limit: nat, events: seq<Event>, event: Event)
    requires event.run.Id?
    ensures Seen(limit, events, event) == Seen(limit, Only(events, event.run), event)
  {
    var key := event.run.key;
    EntryIsReplay(limit, events, key);
    EntryIsReplay(limit, Only(events, event.run), key);
    SinceIgnoresOthers(events, key);
  }
}
