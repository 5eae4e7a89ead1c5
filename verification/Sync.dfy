// sync_contracts_usecase.py: fetching contracts, admitting them one by one and writing the
// admitted ones to the schema cache.
module Sync {
  import opened Options
  import opened Json
  import opened RuleEngine
  import opened SchemaVocabulary
  import opened Admission
  import opened AdmissionMeaning
  import LfuCache
  import LfuRuns
  import CircuitBreaker

  // A missing id is the empty one and a missing schema is null: both are skipped.
  datatype Contract = Contract(id: string, schema: Json, version: string)

  // How contracts are judged. `crashes` is any deterministic reason for which the check
  // itself fails.
  datatype Policy = Policy(re: Regex, setting: Setting, crashes: Json -> bool)

  datatype Failure = Failure(id: string, version: string, crashed: bool, codes: set<Code>)

  function KeyOf(id: string): LfuCache.Key {
    LfuCache.ContractId(id)
  }

  predicate Skipped(c: Contract) {
    c.id == "" || c.schema.JNull?
  }

  ghost predicate Accepted(policy: Policy, c: Contract) {
    !Skipped(c) && !policy.crashes(c.schema) && Admit(policy.re, c.schema, policy.setting).admitted
  }

  ghost predicate Rejected(policy: Policy, c: Contract) {
    !Skipped(c) && !Accepted(policy, c)
  }

  // What one pass does to the cache: a put for each accepted contract, in order. `now(i)`
  // is the clock reading of the put of contract i.
  ghost function PutsOf(policy: Policy, ttl: Option<real>, contracts: seq<Contract>, now: nat -> real): seq<LfuRuns.Op<Json>> {
    if contracts == [] then []
    else
      var n := |contracts| - 1;
      PutsOf(policy, ttl, contracts[..n], now)
      + (if Accepted(policy, contracts[n]) then [LfuRuns.PutOp(KeyOf(contracts[n].id), contracts[n].schema, ttl, now(n))] else [])
  }

  ghost function RejectionsIn(policy: Policy, contracts: seq<Contract>): nat {
    if contracts == [] then 0
    else
      var n := |contracts| - 1;
      RejectionsIn(policy, contracts[..n]) + (if Rejected(policy, contracts[n]) then 1 else 0)
  }

  ghost function After(t: LfuCache.Table<Json>, ops: seq<LfuRuns.Op<Json>>): LfuCache.Table<Json> {
    if ops == [] then t else LfuRuns.Step(After(t, ops[..|ops| - 1]), ops[|ops| - 1])
  }

  // What the repository and the breaker leave to be applied, and whether it was fetched.
  function Obtained(allowed: bool, remote: Option<seq<Contract>>, snapshot: Option<seq<Contract>>): (Option<seq<Contract>>, bool) {
    if allowed && remote.Some? then (remote, true) else (snapshot, false)
  }

  class SyncContractsUseCase {
    const policy: Policy
    const ttl: Option<real>
    const cache: LfuCache.LFUCache<Json>
    // None disables the breaker.
    const breaker: CircuitBreaker.CircuitBreakerObject?
    var contractsRejectedTotal: nat
    var lastAdmissionFailure: Option<Failure>

    constructor (policy: Policy, ttl: Option<real>, cache: LfuCache.LFUCache<Json>,
                 breaker: CircuitBreaker.CircuitBreakerObject?)
      ensures this.policy == policy && this.ttl == ttl && this.cache == cache && this.breaker == breaker
      ensures contractsRejectedTotal == 0 && lastAdmissionFailure == None
    {
      this.policy, this.ttl, this.cache, this.breaker := policy, ttl, cache, breaker;
      contractsRejectedTotal, lastAdmissionFailure := 0, None;
    }

    // _fetch_sync: `remote` is what a fetch returns, None for a CongineSyncError.
    method FetchSync(remote: Option<seq<Contract>>, snapshot: Option<seq<Contract>>, now: real, later: real)
      returns (contracts: Option<seq<Contract>>, fetched: bool)
      modifies breaker
      ensures var allowed := breaker == null || CircuitBreaker.AfterAllow(breaker.Config(), old(breaker.View()), now).1;
              && (contracts, fetched) == Obtained(allowed, remote, snapshot)
              && (fetched <==> allowed && remote.Some?) && contracts == (if fetched then remote else snapshot)
      ensures breaker != null ==>
                var (asked, allowed) := CircuitBreaker.AfterAllow(breaker.Config(), old(breaker.View()), now);
                breaker.View() ==
                  if !allowed then asked
                  else CircuitBreaker.After(breaker.Config(), asked,
                         if remote.Some? then CircuitBreaker.RecordSuccess else CircuitBreaker.RecordFailure, later)
    {
      var allowed := true;
      if breaker != null {
        allowed := breaker.AllowCall(now);
      }
      if !allowed {
        return snapshot, false;
      }
      if remote.None? {
        if breaker != null {
          breaker.Failed(later);
        }
        return snapshot, false;
      }
      if breaker != null {
        breaker.Succeeded(later);
      }
      contracts, fetched := remote, true;
    }

    // _apply; `saved` says whether the fetched contracts were handed to save_snapshot.
    method Apply(contracts: Option<seq<Contract>>, fetched: bool, now: nat -> real) returns (loaded: nat, saved: bool)
      requires cache.Valid()
      modifies this, cache
      ensures cache.Valid()
      ensures var list := contracts.GetOr([]);
              && cache.table == After(old(cache.table), PutsOf(policy, ttl, list, now))
              && loaded == |PutsOf(policy, ttl, list, now)|
              && contractsRejectedTotal == old(contractsRejectedTotal) + RejectionsIn(policy, list)
              && (saved <==> fetched && list != [])
    {
      if contracts.None? || contracts.value == [] {
        return 0, false;
      }
      loaded := PrimeCache(contracts.value, now);
      saved := fetched;
    }

    method PrimeCache(contracts: seq<Contract>, now: nat -> real) returns (loaded: nat)
      requires cache.Valid()
      modifies this, cache
      ensures cache.Valid()
      ensures cache.table == After(old(cache.table), PutsOf(policy, ttl, contracts, now))
      ensures loaded == |PutsOf(policy, ttl, contracts, now)|
      ensures contractsRejectedTotal == old(contractsRejectedTotal) + RejectionsIn(policy, contracts)
      ensures RejectionsIn(policy, contracts) == 0 ==> lastAdmissionFailure == old(lastAdmissionFailure)
    {
      hide Accepted, LfuRuns.Step, LfuCache.TablePut, LfuCache.LFUCache.Valid;
      loaded := 0;
      for i := 0 to |contracts|
        invariant cache.Valid() && 0 <= loaded
        invariant cache.table == After(old(cache.table), PutsOf(policy, ttl, contracts[..i], now))
        invariant loaded == |PutsOf(policy, ttl, contracts[..i], now)|
        invariant contractsRejectedTotal == old(contractsRejectedTotal) + RejectionsIn(policy, contracts[..i])
        invariant RejectionsIn(policy, contracts[..i]) == 0 ==> lastAdmissionFailure == old(lastAdmissionFailure)
      {
        var contract := contracts[i];
        NextContract(policy, ttl, contracts, now, i, old(cache.table));
        if Skipped(contract) {
          SkippedIsNeither(policy, contract);
          continue;
        }
        var admitted := AdmitOne(contract);
        if !admitted {
          continue;
        }
        PutIsAStep(cache.table, KeyOf(contract.id), contract.schema, ttl, now(i));
        cache.Put(KeyOf(contract.id), contract.schema, ttl, now(i));
        loaded := loaded + 1;
      }
      assert contracts[..|contracts|] == contracts;
    }

    // _admit: a check that fails refuses the contract.
    method AdmitOne(contract: Contract) returns (admitted: bool)
      requires !Skipped(contract)
      modifies this
      ensures admitted <==> Accepted(policy, contract)
      ensures admitted ==> contractsRejectedTotal == old(contractsRejectedTotal) && lastAdmissionFailure == old(lastAdmissionFailure)
      ensures !admitted ==> contractsRejectedTotal == old(contractsRejectedTotal) + 1
      ensures !admitted ==>
                var crashed := policy.crashes(contract.schema);
                var codes := if crashed then {} else ErrorCodes(Admit(policy.re, contract.schema, policy.setting).issues);
                lastAdmissionFailure == Some(Failure(contract.id, contract.version, crashed, codes))
    {
      if policy.crashes(contract.schema) {
        RecordRejection(Failure(contract.id, contract.version, true, {}));
        return false;
      }
      var verdict := AdmitContract(policy.re, contract.schema, policy.setting);
      if verdict.admitted {
        return true;
      }
      RecordRejection(Failure(contract.id, contract.version, false, ErrorCodes(verdict.issues)));
      admitted := false;
    }

    method RecordRejection(failure: Failure)
      modifies this
      ensures contractsRejectedTotal == old(contractsRejectedTotal) + 1 && lastAdmissionFailure == Some(failure)
    {
      contractsRejectedTotal := contractsRejectedTotal + 1;
      lastAdmissionFailure := Some(failure);
    }
  }

  function ErrorCodes(issues: seq<Issue>): set<Code> {
    set i | i in issues && i.level == Error :: i.code
  }

  // Every contract of a pass is put, rejected and counted, or skipped for want of an id or a schema.
  lemma {:induction false} EveryContractIsCounted(policy: Policy, ttl: Option<real>, contracts: seq<Contract>, now: nat -> real)
    ensures |PutsOf(policy, ttl, contracts, now)| + RejectionsIn(policy, contracts) + Blank(contracts) == |contracts|
  {
    hide Admit;
    if contracts != [] {
      EveryContractIsCounted(policy, ttl, contracts[..|contracts| - 1], now);
    }
  }

  function Blank(contracts: seq<Contract>): nat {
    if contracts == [] then 0
    else Blank(contracts[..|contracts| - 1])
         + (if contracts[|contracts| - 1].id == "" || contracts[|contracts| - 1].schema == JNull then 1 else 0)
  }

  lemma PutIsAStep(t: LfuCache.Table<Json>, key: LfuCache.Key, schema: Json, ttl: Option<real>, now: real)
    ensures LfuRuns.Step(t, LfuRuns.PutOp(key, schema, ttl, now)) == LfuCache.TablePut(t, key, schema, ttl, now)
  {
  }

  // A contract is put into the cache exactly when it has an id and a schema, the check of it
  // does not fail, and admits it; it counts as rejected when it has both and is not put.
  lemma JudgedExactly(policy: Policy, c: Contract)
    ensures Accepted(policy, c)
       <==> c.id != "" && c.schema != JNull && !policy.crashes(c.schema) && Acceptable(policy.re, c.schema, policy.setting)
    ensures Rejected(policy, c) <==> c.id != "" && c.schema != JNull && !Accepted(policy, c)
  {
    hide Admit, Acceptable;
    AdmittedExactly(policy.re, c.schema, policy.setting);
  }

  // A contract the check refuses leaves at least one code behind.
  lemma RefusalHasACode(re: Regex, schema: Json, setting: Setting)
    requires !Admit(re, schema, setting).admitted
    ensures ErrorCodes(Admit(re, schema, setting).issues) != {}
  {
    hide ErrorsOf;
    var issues := Admit(re, schema, setting).issues;
    if schema.JObj? {
      var i :| 0 <= i < |issues| && issues[i].level == Error;
      assert issues[i] in issues;
      assert issues[i].code in ErrorCodes(issues);
    } else {
      assert issues == [Issue(InvalidStructure, ROOT, Error)] && issues[0] in issues;
      assert InvalidStructure in ErrorCodes(issues);
    }
  }

  lemma SkippedIsNeither(policy: Policy, c: Contract)
    requires Skipped(c)
    ensures !Accepted(policy, c) && !Rejected(policy, c)
  {
  }

  lemma NextContract(policy: Policy, ttl: Option<real>, contracts: seq<Contract>, now: nat -> real, i: nat, t: LfuCache.Table<Json>)
    requires i < |contracts|
    ensures var before, after := PutsOf(policy, ttl, contracts[..i], now), PutsOf(policy, ttl, contracts[..i + 1], now);
            if Accepted(policy, contracts[i])
            then var op := LfuRuns.PutOp(KeyOf(contracts[i].id), contracts[i].schema, ttl, now(i));
                 |after| == |before| + 1 && After(t, after) == LfuRuns.Step(After(t, before), op)
            else after == before
    ensures RejectionsIn(policy, contracts[..i + 1]) == RejectionsIn(policy, contracts[..i]) + if Rejected(policy, contracts[i]) then 1 else 0
  {
    hide Accepted, LfuRuns.Step;
    assert contracts[..i + 1][..i] == contracts[..i];
    var before, after := PutsOf(policy, ttl, contracts[..i], now), PutsOf(policy, ttl, contracts[..i + 1], now);
    if Accepted(policy, contracts[i]) {
      assert after[..|before|] == before;
    }
  }

  // ------------------------------------------------------------------------------
  // Whole histories
  // ------------------------------------------------------------------------------

  // Syncs interleaved with whatever else is done to the cache. Only a sync puts. A pass
  // that is itself interleaved with cache use counts as several, one for each stretch of
  // its contracts.
  datatype Round =
    | SyncRound(allowed: bool, remote: Option<seq<Contract>>, snapshot: Option<seq<Contract>>, now: nat -> real)
    | CacheRound(op: LfuRuns.Op<Json>)

  ghost predicate OnlySyncsPut(rounds: seq<Round>) {
    forall i :: 0 <= i < |rounds| && rounds[i].CacheRound? ==> !rounds[i].op.PutOp?
  }

  ghost predicate NeverCleared(rounds: seq<Round>) {
    forall i :: 0 <= i < |rounds| && rounds[i].CacheRound? ==> !rounds[i].op.ClearOp?
  }

  ghost function OpsIn(policy: Policy, ttl: Option<real>, round: Round): seq<LfuRuns.Op<Json>> {
    match round
    case SyncRound(allowed, remote, snapshot, now) => PutsOf(policy, ttl, Obtained(allowed, remote, snapshot).0.GetOr([]), now)
    case CacheRound(op) => [op]
  }

  ghost function OpsOf(policy: Policy, ttl: Option<real>, rounds: seq<Round>): seq<LfuRuns.Op<Json>> {
    if rounds == [] then [] else OpsOf(policy, ttl, rounds[..|rounds| - 1]) + OpsIn(policy, ttl, rounds[|rounds| - 1])
  }

  // The last contract of a list with this id that was admitted, and when it was put.
  ghost function LatestIn(policy: Policy, contracts: seq<Contract>, now: nat -> real, id: string): Option<(Json, real)> {
    if contracts == [] then None
    else
      var n := |contracts| - 1;
      if contracts[n].id == id && Accepted(policy, contracts[n]) then Some((contracts[n].schema, now(n)))
      else LatestIn(policy, contracts[..n], now, id)
  }

  // The last one of a history, whatever was rejected, skipped or failed to fetch since.
  ghost function LatestAdmitted(policy: Policy, rounds: seq<Round>, id: string): Option<(Json, real)> {
    if rounds == [] then None
    else
      var rest, last := LatestAdmitted(policy, rounds[..|rounds| - 1], id), rounds[|rounds| - 1];
      match last
      case CacheRound(_) => rest
      case SyncRound(allowed, remote, snapshot, now) =>
        var here := LatestIn(policy, Obtained(allowed, remote, snapshot).0.GetOr([]), now, id);
        if here.Some? then here else rest
  }

  ghost function WithDeadline(latest: Option<(Json, real)>, ttl: real): Option<(Json, real)> {
    match latest
    case None => None
    case Some((schema, at)) => Some((schema, at + ttl))
  }

  lemma {:induction false} LastPutOfList(policy: Policy, ttl: Option<real>, standard: real, contracts: seq<Contract>, now: nat -> real,
                                         before: seq<LfuRuns.Op<Json>>, id: string)
    ensures LfuRuns.LastPut(standard, before + PutsOf(policy, ttl, contracts, now), KeyOf(id))
         == var here := LatestIn(policy, contracts, now, id);
            if here.Some? then WithDeadline(here, ttl.GetOr(standard)) else LfuRuns.LastPut(standard, before, KeyOf(id))
  {
    hide Accepted;
    if contracts == [] {
      assert before + PutsOf(policy, ttl, contracts, now) == before;
    } else {
      var n := |contracts| - 1;
      LastPutOfList(policy, ttl, standard, contracts[..n], now, before, id);
      var puts, all := PutsOf(policy, ttl, contracts[..n], now), PutsOf(policy, ttl, contracts, now);
      if Accepted(policy, contracts[n]) {
        assert (before + all)[..|before + puts|] == before + puts;
      } else {
        assert all == puts;
      }
    }
  }

  lemma {:induction false} LastPutIsLatest(policy: Policy, ttl: Option<real>, standard: real, rounds: seq<Round>, id: string)
    requires OnlySyncsPut(rounds)
    ensures var put := LfuRuns.LastPut(standard, OpsOf(policy, ttl, rounds), KeyOf(id));
            put.Some? || NeverCleared(rounds) ==> put == WithDeadline(LatestAdmitted(policy, rounds, id), ttl.GetOr(standard))
  {
    hide Accepted;
    if rounds != [] {
      var rest, last := rounds[..|rounds| - 1], rounds[|rounds| - 1];
      LastPutIsLatest(policy, ttl, standard, rest, id);
      var before := OpsOf(policy, ttl, rest);
      match last
      case CacheRound(op) =>
        assert OpsOf(policy, ttl, rounds) == before + [op];
        assert (before + [op])[..|before|] == before;
      case SyncRound(allowed, remote, snapshot, now) =>
        LastPutOfList(policy, ttl, standard, Obtained(allowed, remote, snapshot).0.GetOr([]), now, before, id);
    }
  }

  lemma {:induction false} LatestInIsAdmitted(policy: Policy, contracts: seq<Contract>, now: nat -> real, id: string)
    requires LatestIn(policy, contracts, now, id).Some?
    ensures Admit(policy.re, LatestIn(policy, contracts, now, id).value.0, policy.setting).admitted
    ensures !policy.crashes(LatestIn(policy, contracts, now, id).value.0)
  {
    hide Admit;
    var n := |contracts| - 1;
    if !(contracts[n].id == id && Accepted(policy, contracts[n])) {
      LatestInIsAdmitted(policy, contracts[..n], now, id);
    }
  }

  lemma {:induction false} LatestIsAdmitted(policy: Policy, rounds: seq<Round>, id: string)
    requires LatestAdmitted(policy, rounds, id).Some?
    ensures Admit(policy.re, LatestAdmitted(policy, rounds, id).value.0, policy.setting).admitted
    ensures !policy.crashes(LatestAdmitted(policy, rounds, id).value.0)
  {
    hide Admit, Accepted;
    var last := rounds[|rounds| - 1];
    match last
    case CacheRound(_) => LatestIsAdmitted(policy, rounds[..|rounds| - 1], id);
    case SyncRound(allowed, remote, snapshot, now) =>
      var contracts := Obtained(allowed, remote, snapshot).0.GetOr([]);
      if LatestIn(policy, contracts, now, id).Some? {
        LatestInIsAdmitted(policy, contracts, now, id);
      } else {
        LatestIsAdmitted(policy, rounds[..|rounds| - 1], id);
      }
  }

  // Over any history of syncs and cache use, get(id) returns nothing or exactly the latest
  // admitted schema for that id, before its deadline: a schema every clause of which
  // passed admission.
  lemma GetIsTheLatestAdmitted(policy: Policy, ttl: Option<real>, capacity: nat, standard: real, rounds: seq<Round>,
                               id: string, now: real)
    requires OnlySyncsPut(rounds)
    requires LfuCache.TableGet(LfuRuns.Run(capacity, standard, OpsOf(policy, ttl, rounds)), KeyOf(id), now).1.Some?
    ensures var schema := LfuCache.TableGet(LfuRuns.Run(capacity, standard, OpsOf(policy, ttl, rounds)), KeyOf(id), now).1.value;
            var latest := LatestAdmitted(policy, rounds, id);
            && latest.Some? && latest.value.0 == schema && now < latest.value.1 + ttl.GetOr(standard)
            && Acceptable(policy.re, schema, policy.setting) && !policy.crashes(schema)
  {
    hide Admit, Acceptable, LatestAdmitted, OpsOf;
    var ops := OpsOf(policy, ttl, rounds);
    LfuRuns.HitIsTheLatestPut(capacity, standard, ops, KeyOf(id), now);
    LastPutIsLatest(policy, ttl, standard, rounds, id);
    LatestIsAdmitted(policy, rounds, id);
    AdmittedExactly(policy.re, LatestAdmitted(policy, rounds, id).value.0, policy.setting);
  }

  // While the cache is never crowded, a rejected or failed update leaves the last known
  // good schema serving until its deadline.
  lemma LastKnownGoodServes(policy: Policy, ttl: Option<real>, capacity: nat, standard: real, rounds: seq<Round>,
                            id: string, now: real)
    requires OnlySyncsPut(rounds) && NeverCleared(rounds) && LfuRuns.Clocked(OpsOf(policy, ttl, rounds), now)
    requires |LfuRuns.KeysPut(OpsOf(policy, ttl, rounds))| <= capacity
    ensures LfuCache.TableGet(LfuRuns.Run(capacity, standard, OpsOf(policy, ttl, rounds)), KeyOf(id), now).1
         == match LatestAdmitted(policy, rounds, id)
            case Some((schema, at)) => (if now < at + ttl.GetOr(standard) then Some(schema) else None)
            case None => None
  {
    hide LatestAdmitted, OpsOf;
    LfuRuns.UncrowdedCacheIsATtlMap(capacity, standard, OpsOf(policy, ttl, rounds), KeyOf(id), now);
    LastPutIsLatest(policy, ttl, standard, rounds, id);
  }

  // The table the syncs leave is the one their operations leave.
  lemma {:induction false} AfterIsRun(capacity: nat, standard: real, before: seq<LfuRuns.Op<Json>>, ops: seq<LfuRuns.Op<Json>>)
    ensures After(LfuRuns.Run(capacity, standard, before), ops) == LfuRuns.Run(capacity, standard, before + ops)
  {
    hide LfuRuns.Step;
    if ops == [] {
      assert before + ops == before;
    } else {
      AfterIsRun(capacity, standard, before, ops[..|ops| - 1]);
      assert (before + ops)[..|before + ops| - 1] == before + ops[..|ops| - 1];
    }
  }
}
