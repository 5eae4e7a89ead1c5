// What becomes of a batch the worker holds: it is posted again after each failure, and given
// up only for one of three reasons.
module Retries {
  import opened EventBus

  // Posts of the batch in the hand that have failed, counted from the labels alone.
  function FailedPosts(cfg: Config, labels: seq<Label>): nat {
    if labels == [] then 0
    else FailedAfter(Run(cfg, labels[..|labels| - 1]), labels[|labels| - 1], FailedPosts(cfg, labels[..|labels| - 1]))
  }

  function FailedAfter(s: State, l: Label, failed: nat): nat {
    if !Enabled(s, l) then failed
    else if l.Hand? then 0
    else if l == EndPost(false) then failed + 1
    else failed
  }

  // The attempts a batch has: what stop asked for in the final flush, else the setting.
  function Attempts(cfg: Config, mode: Mode): int {
    match mode
    case Regular => cfg.maxRetries
    case Final(maxAttempts) => maxAttempts.GetOr(cfg.maxRetries)
  }

  // Where the worker stands in its retry loop agrees with the failures so far.
  ghost predicate Counted(cfg: Config, s: State, failed: nat) {
    match s.pc
    case Posting(mode, budget, attempt) => budget == Attempts(cfg, mode) && attempt == failed + 1 && failed < budget && cfg.hasPlane
    case InPost(mode, budget, attempt) => budget == Attempts(cfg, mode) && attempt == failed + 1 && failed < budget && cfg.hasPlane
    case Backoff(mode, budget, attempt) => budget == Attempts(cfg, mode) && attempt == failed && 1 <= failed < budget && cfg.hasPlane
    case _ => true
  }

  lemma {:induction false} FailuresAreCounted(cfg: Config, labels: seq<Label>)
    ensures Counted(cfg, Run(cfg, labels), FailedPosts(cfg, labels))
  {
    hide Step, Counted, FailedAfter;
    if labels != [] {
      var rest := labels[..|labels| - 1];
      FailuresAreCounted(cfg, rest);
      StepCounts(cfg, Run(cfg, rest), labels[|labels| - 1], FailedPosts(cfg, rest));
    } else {
      NothingToCount(cfg);
    }
  }

  lemma NothingToCount(cfg: Config)
    ensures Counted(cfg, Initial(), 0)
  {
  }

  lemma StepCounts(cfg: Config, s: State, l: Label, failed: nat)
    requires Counted(cfg, s, failed)
    ensures Counted(cfg, Step(cfg, s, l), FailedAfter(s, l, failed))
  {
    hide AfterHand, AfterGather, AfterPost;
    if Enabled(s, l) {
      match l
      case Hand(allows) => HandCounts(cfg, s, allows);
      case Gather => GatherCounts(cfg, s, failed);
      case EndPost(ok) => PostCounts(cfg, s, ok, failed);
      case _ =>
    }
  }

  lemma HandCounts(cfg: Config, s: State, allows: bool)
    requires s.pc.Handing?
    ensures Counted(cfg, AfterHand(cfg, s, allows), 0)
  {
  }

  lemma GatherCounts(cfg: Config, s: State, failed: nat)
    requires s.pc.Gathering?
    ensures Counted(cfg, AfterGather(cfg, s), failed)
  {
  }

  lemma PostCounts(cfg: Config, s: State, ok: bool, failed: nat)
    requires s.pc.InPost? && Counted(cfg, s, failed)
    ensures Counted(cfg, AfterPost(s, ok), if ok then failed else failed + 1)
  {
  }

  lemma FailedStep(cfg: Config, labels: seq<Label>, l: Label)
    ensures FailedPosts(cfg, labels + [l]) == FailedAfter(Run(cfg, labels), l, FailedPosts(cfg, labels))
  {
    assert (labels + [l])[..|labels|] == labels;
  }

  // The worker is shipping a batch.
  ghost predicate Shipping(s: State) {
    s.pc.Handing? || s.pc.Posting? || s.pc.InPost? || s.pc.Backoff?
  }

  // What becomes of the batch in the hand at one step.
  datatype Fate = Kept | ShippedOrObserved | Dropped | LostUncounted

  ghost predicate Meets(s: State, t: State, fate: Fate) {
    match fate
    case Kept =>
      && Shipping(t) && t.hand == s.hand && t.droppedTotal == s.droppedTotal
      && t.shipped == s.shipped && t.observed == s.observed && t.lost == s.lost
    case ShippedOrObserved =>
      && t.hand == [] && t.droppedTotal == s.droppedTotal && t.lost == s.lost
      && t.shipped + t.observed == s.shipped + s.observed + |s.hand|
    case Dropped =>
      && t.hand == [] && t.droppedTotal == s.droppedTotal + |s.hand|
      && t.shipped == s.shipped && t.observed == s.observed && t.lost == s.lost
    case LostUncounted =>
      && t.hand == [] && t.lost == s.lost + |s.hand|
      && t.droppedTotal == s.droppedTotal && t.shipped == s.shipped && t.observed == s.observed
  }

  // The fate of the batch, from the setting, the labels so far and the answer that comes:
  // a failed post is followed by another until the attempts are used up, unless stop came.
  ghost function FateOf(cfg: Config, labels: seq<Label>, l: Label): Fate
    requires Shipping(Run(cfg, labels))
  {
    var s, failed := Run(cfg, labels), FailedPosts(cfg, labels);
    match l
    case Hand(allows) =>
      if !cfg.hasPlane then ShippedOrObserved
      else if cfg.hasBreaker && !allows then Dropped
      else if Attempts(cfg, s.pc.mode) < 1 then LostUncounted
      else Kept
    case EndPost(ok) => if ok then ShippedOrObserved else if failed + 1 < Attempts(cfg, s.pc.mode) then Kept else Dropped
    case EndWait => if s.closed then Dropped else Kept
    case _ => Kept
  }

  lemma BatchMeetsItsFate(cfg: Config, labels: seq<Label>, l: Label)
    requires Shipping(Run(cfg, labels)) && WorkerLabel(l) && Enabled(Run(cfg, labels), l)
    ensures Meets(Run(cfg, labels), Run(cfg, labels + [l]), FateOf(cfg, labels, l))
  {
    hide Run, FailedPosts;
    RunStep(cfg, labels, l);
    FailuresAreCounted(cfg, labels);
  }

  // So a batch is given up only by an open breaker, after as many failed posts as it has
  // attempts, or after a failed post on a bus that was stopped.
  lemma DroppedOnlyFor(cfg: Config, labels: seq<Label>, l: Label)
    requires var s, t := Run(cfg, labels), Run(cfg, labels + [l]);
             !l.CountDrop? && t.droppedTotal != s.droppedTotal
    ensures var s := Run(cfg, labels);
            && Shipping(s)
            && ( || (l == Hand(false) && cfg.hasBreaker)
                 || (l == EndPost(false) && FailedPosts(cfg, labels + [l]) == Attempts(cfg, s.pc.mode))
                 || (l == EndWait && s.closed && FailedPosts(cfg, labels) >= 1))
  {
    hide Run, FailedPosts, Step;
    RunStep(cfg, labels, l);
    FailedStep(cfg, labels, l);
    FailuresAreCounted(cfg, labels);
    WhoDrops(cfg, Run(cfg, labels), l);
  }

  lemma WhoDrops(cfg: Config, s: State, l: Label)
    requires !l.CountDrop? && Step(cfg, s, l).droppedTotal != s.droppedTotal
    ensures Enabled(s, l)
    ensures (s.pc.Handing? && l == Hand(false) && cfg.hasBreaker)
         || (s.pc.InPost? && l == EndPost(false) && s.pc.attempt >= s.pc.budget)
         || (s.pc.Backoff? && l == EndWait && s.closed)
  {
    hide AfterGather;
    if l.Gather? && Enabled(s, l) {
      GatherDropsNothing(cfg, s);
    }
  }

  lemma GatherDropsNothing(cfg: Config, s: State)
    requires s.pc.Gathering?
    ensures AfterGather(cfg, s).droppedTotal == s.droppedTotal
  {
  }
}
