// JsonSchemaSemanticValidator.validate of jsonschema_validator.py: the preparation cache
// must be invisible. The answer with the cache, under every interleaving of concurrent
// calls, is the answer of the version that always runs check_schema.
module SemanticValidator {
  import opened Options
  import opened Json
  import opened Breaches
  import opened CanonicalText
  import opened Decimal
  import opened OwnAndAudit
  import opened PreparationCache
  import opened SecurityLimits

  type Class = nat

  const CACHE_VERSION := 1

  // A schema as the caller holds it: a node in a graph of Python objects.
  datatype Schema = Schema(graph: Graph, root: Ref)

  // What the call works from: an owned snapshot, or the caller's own object when that
  // is not plain JSON.
  datatype Document = Snapshot(json: Json) | Uncacheable(schema: Schema)

  datatype CacheKey = CacheKey(digest: string, cls: Class, formatChecking: bool, version: int)

  // check_schema either accepts or raises SchemaError with a message.
  datatype Verdict = Accepted | Refused(message: string)

  // Foreign code, as deterministic functions. Whether check_schema accepts a snapshot
  // depends on its content without key order; everything else may look at the document.
  datatype Library = Library(
    floatText: FloatText,
    sha256: string -> string,
    accepts: (Class, Value) -> bool,
    refusal: (Class, Document) -> string,
    checkRaw: (Class, Schema) -> Verdict,
    guardRaw: Schema -> Option<seq<Breach>>,
    iterErrors: (Class, bool, Document, Json) -> seq<Breach>)

  datatype Evaluator = Evaluator(cls: Class, formatChecking: bool, maxBreaches: nat, lib: Library)

  ghost predicate Sound(lib: Library) {
    && Faithful(lib.floatText)
    && forall a, b :: lib.sha256(a) == lib.sha256(b) ==> a == b
  }

  // The graph leads nowhere outside itself, and its floats are finite doubles.
  ghost predicate Proper(lib: Library, s: Schema) {
    && Closed(s.graph) && Known(s.graph, s.root)
    && (Own(s.graph, s.root, {}).Some? ==> Doubles(lib.floatText, Own(s.graph, s.root, {}).value))
  }

  // prepare_identity.
  function Identity(lib: Library, s: Schema): (r: (Document, Option<string>))
    requires Proper(lib, s)
    ensures r.0.Snapshot? <==> r.1.Some?
    ensures r.0.Snapshot? ==> WellFormed(r.0.json) && Doubles(lib.floatText, r.0.json)
    ensures r.0.Snapshot? ==> r.1 == Some(lib.sha256(Blob(lib.floatText, r.0.json)))
  {
    match Own(s.graph, s.root, {})
    case None => (Uncacheable(s), None)
    case Some(j) =>
      OwnedUnfolds(s.graph, s.root, {});
      UnfoldingIsWellFormed(s.graph, s.root, j);
      (Snapshot(j), Some(lib.sha256(Blob(lib.floatText, j))))
  }

  function TooLong(spec: Json): bool {
    spec.JObj? && "pattern" in spec.m && spec.m["pattern"].JStr? && |spec.m["pattern"].s| > MAX_PATTERN_LENGTH
  }

  function PatternBreach(field: string): Breach {
    Breach("SEMANTIC_SCHEMA", field, "Pattern for '" + field + "' exceeds the safe length budget")
  }

  function PatternBreaches(properties: Json, keys: seq<string>): seq<Breach>
    requires properties.JObj?
  {
    if keys == [] then []
    else
      var n := |keys| - 1;
      PatternBreaches(properties, keys[..n]) +
      (if keys[n] in properties.m && TooLong(properties.m[keys[n]]) then [PatternBreach(keys[n])] else [])
  }

  // A field is reported exactly when its spec has a pattern of more than a thousand characters.
  lemma {:induction false} PatternsReportedExactly(properties: Json, keys: seq<string>, b: Breach)
    requires properties.JObj?
    ensures b in PatternBreaches(properties, keys)
       <==> exists i :: 0 <= i < |keys| && OverBudget(properties, keys[i]) && b == PatternBreach(keys[i])
  {
    if keys != [] {
      var n := |keys| - 1;
      PatternsReportedExactly(properties, keys[..n], b);
      assert OverBudget(properties, keys[n]) <==> keys[n] in properties.m && TooLong(properties.m[keys[n]]);
      assert forall i :: 0 <= i < n ==> keys[..n][i] == keys[i];
    }
  }

  // Fields are reported in the order they are declared in.
  lemma {:induction false} PatternsReportedInOrder(properties: Json, first: seq<string>, rest: seq<string>)
    requires properties.JObj?
    ensures PatternBreaches(properties, first + rest) == PatternBreaches(properties, first) + PatternBreaches(properties, rest)
  {
    if rest == [] {
      assert first + rest == first;
    } else {
      var n := |rest| - 1;
      PatternsReportedInOrder(properties, first, rest[..n]);
      hide TooLong, PatternBreach;
      var all := first + rest;
      assert |all| - 1 == |first| + n && all[..|first| + n] == first + rest[..n] && all[|first| + n] == rest[n];
    }
  }

  // The text under properties -> field -> pattern is longer than the budget.
  predicate OverBudget(properties: Json, field: string)
    requires properties.JObj?
  {
    && field in properties.m && properties.m[field].JObj? && "pattern" in properties.m[field].m
    && match properties.m[field].m["pattern"]
       case JStr(s) => |s| > 1000
       case _ => false
  }

  // _check_schema_patterns; None when the document has no `get`, so the call raises.
  function Guard(lib: Library, doc: Document): Option<seq<Breach>> {
    match doc
    case Uncacheable(s) => lib.guardRaw(s)
    case Snapshot(j) =>
      if !j.JObj? then None
      else if "properties" in j.m && j.m["properties"].JObj? then
        Some(PatternBreaches(j.m["properties"], j.m["properties"].keys))
      else Some([])
  }

  function CheckSchema(ev: Evaluator, doc: Document): Verdict {
    match doc
    case Uncacheable(s) => ev.lib.checkRaw(ev.cls, s)
    case Snapshot(j) =>
      if ev.lib.accepts(ev.cls, Unordered(j)) then Accepted else Refused(ev.lib.refusal(ev.cls, doc))
  }

  // The drain of iter_errors: at most maxBreaches errors, then one marker if any was cut.
  function Drained(errors: seq<Breach>, maxBreaches: nat, marker: Breach): seq<Breach> {
    if |errors| <= maxBreaches then errors else errors[..maxBreaches] + [marker]
  }

  // The first errors are kept in order, and a marker that is none of them is there exactly when
  // something was cut.
  lemma CutExactlyWhenMarked(errors: seq<Breach>, maxBreaches: nat, marker: Breach)
    requires marker !in errors
    ensures var kept := if |errors| < maxBreaches then |errors| else maxBreaches;
            && Drained(errors, maxBreaches, marker)[..kept] == errors[..kept]
            && |Drained(errors, maxBreaches, marker)| == kept + (if |errors| > kept then 1 else 0)
            && (marker in Drained(errors, maxBreaches, marker) <==> |errors| > maxBreaches)
  {
    if |errors| > maxBreaches {
      assert Drained(errors, maxBreaches, marker)[maxBreaches] == marker;
    }
  }

  function Truncated(maxBreaches: nat): Breach {
    Breach("SEMANTIC_TRUNCATED", "<root>", "Semantic validation truncated after " + IntText(maxBreaches) + " breaches")
  }

  function InvalidSchema(message: string): Breach {
    Breach("SEMANTIC_SCHEMA", "<schema>", message)
  }

  function Evaluate(ev: Evaluator, doc: Document, payload: Json): seq<Breach> {
    Drained(ev.lib.iterErrors(ev.cls, ev.formatChecking, doc, payload), ev.maxBreaches, Truncated(ev.maxBreaches))
  }

  // The reference: no cache at all. None means the call raises.
  ghost function Uncached(ev: Evaluator, s: Schema, payload: Json): Option<seq<Breach>>
    requires Proper(ev.lib, s)
  {
    var doc := Identity(ev.lib, s).0;
    match Guard(ev.lib, doc)
    case None => None
    case Some(guard) =>
      if guard != [] then Some(guard)
      else
        match CheckSchema(ev, doc)
        case Refused(message) => Some([InvalidSchema(message)])
        case Accepted => Some(Evaluate(ev, doc, payload))
  }

  // What the reference answers, by what the library says: the guard comes first, then the
  // schema check, and only an accepted schema is evaluated, by the configured class and format
  // policy.
  lemma UncachedExactly(ev: Evaluator, s: Schema, payload: Json)
    requires Proper(ev.lib, s)
    ensures var doc := Identity(ev.lib, s).0;
            var guard := Guard(ev.lib, doc);
            var verdict := if doc.Uncacheable? then ev.lib.checkRaw(ev.cls, s)
                           else if ev.lib.accepts(ev.cls, Unordered(doc.json)) then Accepted
                           else Refused(ev.lib.refusal(ev.cls, doc));
            Uncached(ev, s, payload)
            == if guard.None? || guard.value != [] then guard
               else if verdict.Refused? then Some([Breach("SEMANTIC_SCHEMA", "<schema>", verdict.message)])
               else
                 var errors := ev.lib.iterErrors(ev.cls, ev.formatChecking, doc, payload);
                 Some(if |errors| <= ev.maxBreaches then errors
                      else errors[..ev.maxBreaches] + [Truncated(ev.maxBreaches)])
  {
    hide Proper, Guard, Unordered;
  }

  // preparation_key.
  function KeyOf(ev: Evaluator, digest: string): CacheKey {
    CacheKey(digest, ev.cls, ev.formatChecking, CACHE_VERSION)
  }

  // Markers of different validator classes or format policies never answer for each other.
  lemma KeysSeparateEvaluators(a: Evaluator, b: Evaluator, digest: string, other: string)
    ensures KeyOf(a, digest) == KeyOf(b, other) <==> digest == other && a.cls == b.cls && a.formatChecking == b.formatChecking
  {
  }

  // A marker is true: check_schema accepts every document with this key, by whichever
  // evaluator on the same library.
  ghost predicate TrueMarker(ev: Evaluator, key: CacheKey) {
    forall other: Evaluator, s ::
      other.lib == ev.lib && Proper(ev.lib, s) && Identity(ev.lib, s).1.Some? && KeyOf(other, Identity(ev.lib, s).1.value) == key ==>
        CheckSchema(other, Identity(ev.lib, s).0) == Accepted
  }

  ghost predicate TrueMarkers(ev: Evaluator, entries: seq<CacheKey>) {
    forall key :: key in entries ==> TrueMarker(ev, key)
  }

  // One success with a key vouches for every document with that key: equal digests mean
  // equal blobs, and equal blobs mean equal content.
  lemma OneSuccessVouchesForAll(ev: Evaluator, s: Schema)
    requires Sound(ev.lib) && Proper(ev.lib, s) && Identity(ev.lib, s).1.Some?
    requires CheckSchema(ev, Identity(ev.lib, s).0) == Accepted
    ensures TrueMarker(ev, KeyOf(ev, Identity(ev.lib, s).1.value))
  {
    var doc := Identity(ev.lib, s).0;
    var key := KeyOf(ev, Identity(ev.lib, s).1.value);
    forall other: Evaluator, t
      | other.lib == ev.lib && Proper(ev.lib, t) && Identity(ev.lib, t).1.Some? && KeyOf(other, Identity(ev.lib, t).1.value) == key
      ensures CheckSchema(other, Identity(ev.lib, t).0) == Accepted
    {
      KeysSeparateEvaluators(ev, other, Identity(ev.lib, s).1.value, Identity(ev.lib, t).1.value);
      BlobIdentifiesTheValue(ev.lib.floatText, doc.json, Identity(ev.lib, t).0.json);
    }
  }

  lemma MarkKeepsMarkers(ev: Evaluator, entries: seq<CacheKey>, key: CacheKey, capacity: nat)
    requires TrueMarkers(ev, entries) && TrueMarker(ev, key)
    ensures TrueMarkers(ev, AfterMark(entries, key, capacity))
  {
    DroppedMembers(entries, key);
    forall k | k in AfterMark(entries, key, capacity) ensures TrueMarker(ev, k) {
      LastOfMembers(MovedToEnd(entries, key), capacity);
      assert k in Elements(MovedToEnd(entries, key));
    }
  }

  lemma LookupKeepsMarkers(ev: Evaluator, entries: seq<CacheKey>, key: CacheKey)
    requires TrueMarkers(ev, entries)
    ensures TrueMarkers(ev, AfterLookup(entries, key))
  {
    DroppedMembers(entries, key);
    forall k | k in AfterLookup(entries, key) ensures TrueMarker(ev, k) {
      assert k in Elements(MovedToEnd(entries, key)) || k in entries;
    }
  }

  lemma {:induction false} LastOfMembers<K>(s: seq<K>, capacity: nat)
    ensures forall k :: k in LastOf(s, capacity) ==> k in s
  {
    if |s| > capacity {
      LastOfMembers(s[1..], capacity);
    }
  }

  // ------------------------------------------------------------------------------
  // Concurrent calls: the lock is held for a lookup or a mark, never across check_schema
  // ------------------------------------------------------------------------------

  type Thread = nat

  datatype Progress =
    | Looking                                 // identity and pattern guard done, cache not consulted
    | Checking                                // missed (or uncacheable): check_schema is running
    | Marking                                 // check_schema succeeded, marker not recorded yet
    | Evaluating
    | Returned(answer: Option<seq<Breach>>)

  datatype Call = Call(schema: Schema, payload: Json, progress: Progress)

  datatype World = World(entries: seq<CacheKey>, calls: map<Thread, Call>)

  datatype Label = Begin(t: Thread, schema: Schema, payload: Json) | Advance(t: Thread)

  ghost predicate Enabled(ev: Evaluator, w: World, l: Label) {
    match l
    case Begin(t, s, _) => t !in w.calls && Proper(ev.lib, s)
    case Advance(t) => t in w.calls && !w.calls[t].progress.Returned? && Proper(ev.lib, w.calls[t].schema)
  }

  ghost function Started(ev: Evaluator, s: Schema, payload: Json): Call
    requires Proper(ev.lib, s)
  {
    var (doc, digest) := Identity(ev.lib, s);
    var guard := Guard(ev.lib, doc);
    Call(s, payload,
         if guard.None? || guard.value != [] then Returned(guard)
         else if digest.None? then Checking
         else Looking)
  }

  ghost function Next(ev: Evaluator, capacity: nat, w: World, l: Label): World
    requires Enabled(ev, w, l)
  {
    match l
    case Begin(t, s, payload) => w.(calls := w.calls[t := Started(ev, s, payload)])
    case Advance(t) =>
      var call := w.calls[t];
      var (doc, digest) := Identity(ev.lib, call.schema);
      match call.progress
      case Looking =>
        if digest.None? then w
        else
          var key := KeyOf(ev, digest.value);
          World(AfterLookup(w.entries, key),
                w.calls[t := call.(progress := if key in w.entries then Evaluating else Checking)])
      case Checking =>
        (match CheckSchema(ev, doc)
         case Refused(message) => w.(calls := w.calls[t := call.(progress := Returned(Some([InvalidSchema(message)])))])
         case Accepted => w.(calls := w.calls[t := call.(progress := if digest.None? then Evaluating else Marking)]))
      case Marking =>
        if digest.None? then w
        else
          World(AfterMark(w.entries, KeyOf(ev, digest.value), capacity),
                w.calls[t := call.(progress := Evaluating)])
      case Evaluating =>
        w.(calls := w.calls[t := call.(progress := Returned(Some(Evaluate(ev, doc, call.payload))))])
      case Returned(_) => w
  }

  ghost predicate CallOk(ev: Evaluator, call: Call) {
    Proper(ev.lib, call.schema) &&
    var (doc, digest) := Identity(ev.lib, call.schema);
    match call.progress
    case Returned(answer) => answer == Uncached(ev, call.schema, call.payload)
    case Looking => Guard(ev.lib, doc) == Some([]) && digest.Some?
    case Checking => Guard(ev.lib, doc) == Some([])
    case Marking => Guard(ev.lib, doc) == Some([]) && digest.Some? && CheckSchema(ev, doc) == Accepted
    case Evaluating => Guard(ev.lib, doc) == Some([]) && CheckSchema(ev, doc) == Accepted
  }

  ghost predicate WorldOk(ev: Evaluator, w: World) {
    TrueMarkers(ev, w.entries) && forall t :: t in w.calls ==> CallOk(ev, w.calls[t])
  }

  lemma StepKeepsWorldOk(ev: Evaluator, capacity: nat, w: World, l: Label)
    requires Sound(ev.lib) && WorldOk(ev, w) && Enabled(ev, w, l)
    ensures WorldOk(ev, Next(ev, capacity, w, l))
  {
    if l.Advance? {
      var call := w.calls[l.t];
      var digest := Identity(ev.lib, call.schema).1;
      assert CallOk(ev, call);
      if digest.Some? {
        var key := KeyOf(ev, digest.value);
        LookupKeepsMarkers(ev, w.entries, key);
        if call.progress.Marking? {
          OneSuccessVouchesForAll(ev, call.schema);
          MarkKeepsMarkers(ev, w.entries, key, capacity);
        }
      }
    }
  }

  // A run: some labels, each enabled where it happens.
  ghost predicate Run(ev: Evaluator, capacity: nat, labels: seq<Label>, w: World) {
    if labels == [] then w == World([], map[])
    else
      var rest, last := labels[..|labels| - 1], labels[|labels| - 1];
      exists v :: Run(ev, capacity, rest, v) && Enabled(ev, v, last) && w == Next(ev, capacity, v, last)
  }

  lemma {:induction false} RunKeepsWorldOk(ev: Evaluator, capacity: nat, labels: seq<Label>,
                                                    w: World)
    requires Sound(ev.lib) && Run(ev, capacity, labels, w)
    ensures WorldOk(ev, w)
  {
    if labels != [] {
      var rest, last := labels[..|labels| - 1], labels[|labels| - 1];
      var v :| Run(ev, capacity, rest, v) && Enabled(ev, v, last) && w == Next(ev, capacity, v, last);
      RunKeepsWorldOk(ev, capacity, rest, v);
      StepKeepsWorldOk(ev, capacity, v, last);
    }
  }

  // Transparency: whatever else ran, hit, missed or was evicted in between, a call that
  // has returned gave the uncached answer, and every marker in the cache is true.
  lemma CacheIsTransparent(ev: Evaluator, capacity: nat, labels: seq<Label>,
                                    w: World, t: Thread)
    requires Sound(ev.lib) && Run(ev, capacity, labels, w)
    requires t in w.calls && w.calls[t].progress.Returned?
    ensures Proper(ev.lib, w.calls[t].schema)
    ensures w.calls[t].progress.answer == Uncached(ev, w.calls[t].schema, w.calls[t].payload)
    ensures TrueMarkers(ev, w.entries)
  {
    RunKeepsWorldOk(ev, capacity, labels, w);
    assert CallOk(ev, w.calls[t]);
  }

  // ------------------------------------------------------------------------------
  // One call, on the cache object
  // ------------------------------------------------------------------------------

  class JsonSchemaSemanticValidator {
    const evaluator: Evaluator
    const cache: SchemaPreparationCache<CacheKey>

    ghost predicate Valid()
      reads this, cache
    {
      cache.Valid() && Sound(evaluator.lib) && TrueMarkers(evaluator, cache.entries)
    }

    constructor (evaluator: Evaluator, capacity: nat)
      requires Sound(evaluator.lib) && 1 <= capacity
      ensures Valid() && this.evaluator == evaluator && fresh(cache)
    {
      this.evaluator := evaluator;
      cache := new SchemaPreparationCache<CacheKey>(capacity);
    }

    method CheckSchemaPatterns(doc: Document) returns (breaches: Option<seq<Breach>>)
      ensures breaches == Guard(evaluator.lib, doc)
    {
      if doc.Uncacheable? {
        return evaluator.lib.guardRaw(doc.schema);
      }
      if !doc.json.JObj? {
        return None;
      }
      if "properties" !in doc.json.m || !doc.json.m["properties"].JObj? {
        return Some([]);
      }
      var properties := doc.json.m["properties"];
      var found := [];
      for i := 0 to |properties.keys|
        invariant found == PatternBreaches(properties, properties.keys[..i])
      {
        assert properties.keys[..i + 1][..i] == properties.keys[..i];
        var name := properties.keys[i];
        if name in properties.m && TooLong(properties.m[name]) {
          found := found + [PatternBreach(name)];
        }
      }
      assert properties.keys[..|properties.keys|] == properties.keys;
      breaches := Some(found);
    }

    // The lookup, the check on a miss and the mark after a success: a hit stands for the
    // verdict check_schema would give.
    method Prepare(schema: Schema, doc: Document, digest: Option<string>) returns (verdict: Verdict)
      requires Valid() && Proper(evaluator.lib, schema) && (doc, digest) == Identity(evaluator.lib, schema)
      modifies cache
      ensures Valid() && verdict == CheckSchema(evaluator, doc)
    {
      hide Sound, Proper, CheckSchema, TrueMarkers;
      if digest.None? {
        return CheckSchema(evaluator, doc);
      }
      var key := KeyOf(evaluator, digest.value);
      LookupKeepsMarkers(evaluator, cache.entries, key);
      HitVouches(evaluator, cache.entries, schema);
      var prepared := cache.IsPrepared(key);
      if prepared {
        return Accepted;
      }
      verdict := CheckSchema(evaluator, doc);
      if verdict.Accepted? {
        OneSuccessVouchesForAll(evaluator, schema);
        MarkKeepsMarkers(evaluator, cache.entries, key, cache.capacity);
        cache.MarkPrepared(key);
      }
    }

    method Validate(payload: Json, schema: Schema) returns (answer: Option<seq<Breach>>)
      requires Valid() && Proper(evaluator.lib, schema)
      modifies cache
      ensures Valid() && answer == Uncached(evaluator, schema, payload)
    {
      hide Sound, Proper, CheckSchema, TrueMarkers;
      var (doc, digest) := Identity(evaluator.lib, schema);
      var guard := CheckSchemaPatterns(doc);
      if guard.None? || guard.value != [] {
        return guard;
      }
      var verdict := Prepare(schema, doc, digest);
      if verdict.Refused? {
        return Some([InvalidSchema(verdict.message)]);
      }
      var errors := evaluator.lib.iterErrors(evaluator.cls, evaluator.formatChecking, doc, payload);
      var breaches := Drain(errors, evaluator.maxBreaches, Truncated(evaluator.maxBreaches));
      answer := Some(breaches);
    }
  }

  // A marker found in the cache is a verdict.
  lemma HitVouches(ev: Evaluator, entries: seq<CacheKey>, s: Schema)
    requires TrueMarkers(ev, entries) && Proper(ev.lib, s)
    ensures var (doc, digest) := Identity(ev.lib, s);
            digest.Some? && KeyOf(ev, digest.value) in entries ==> CheckSchema(ev, doc) == Accepted
  {
    hide CheckSchema;
  }

  // The drain of iter_errors.
  method Drain(errors: seq<Breach>, maxBreaches: nat, marker: Breach) returns (breaches: seq<Breach>)
    ensures |breaches| <= maxBreaches + 1
    ensures breaches == Drained(errors, maxBreaches, marker)
  {
    breaches := [];
    var truncated := false;
    for i := 0 to |errors|
      invariant breaches == errors[..i] && i <= maxBreaches && !truncated
    {
      if |breaches| >= maxBreaches {
        truncated := true;
        break;
      }
      breaches := breaches + [errors[i]];
    }
    if truncated {
      breaches := breaches + [marker];
    }
  }
}
