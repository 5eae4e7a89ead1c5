// Whether every clause of an admitted contract is executed: what contract_admission.py
// promises, clause by clause and position by position, and exactly where it is not kept.
module Coverage {
  import opened Options
  import opened Json
  import opened Collecting
  import opened Equality
  import opened References
  import opened RuleEngine
  import opened SchemaVocabulary
  import opened Admission
  import opened AdmissionMeaning
  import opened Faithful

  // ------------------------------------------------------------------------------
  // Clauses and who executes them
  // ------------------------------------------------------------------------------

  datatype Position = AtRoot | AtProperty(name: string)

  datatype Clause = Clause(at: Position, keyword: string)

  // The schema a position holds its keywords in.
  function HolderOf(schema: Json, at: Position): Option<Json>
    requires schema.JObj?
  {
    match at
    case AtRoot => Some(schema)
    case AtProperty(name) =>
      var properties := PropertiesOf(schema);
      if properties.JObj? && name in properties.keys && name in properties.m && properties.m[name].JObj?
      then Some(properties.m[name]) else None
  }

  // A keyword that stands there and is not documentation.
  predicate IsClause(schema: Json, c: Clause) {
    && schema.JObj? && HolderOf(schema, c.at).Some?
    && c.keyword in HolderOf(schema, c.at).value.keys && c.keyword in HolderOf(schema, c.at).value.m
    && !IsMetadata(c.keyword)
  }

  function ValueOf(schema: Json, c: Clause): Json
    requires IsClause(schema, c)
  {
    HolderOf(schema, c.at).value.m[c.keyword]
  }

  // The native rules read a keyword at its own position only.
  predicate ReadNatively(schema: Json, c: Clause)
    requires IsClause(schema, c)
  {
    match c.at
    case AtRoot => ReadAtTopLevel(c.keyword) || (c.keyword == "type" && ValueOf(schema, c) == JStr("object"))
    case AtProperty(_) =>
      if c.keyword == "type" then TypeIsEnforceable(ValueOf(schema, c)) else ReadPerProperty(c.keyword)
  }

  // To read a clause is not yet to execute it: the range rule has to pass no value the bound
  // forbids, the pattern rule skips an empty pattern, and an explicit null under one of the
  // top-level keys ends every validation before its breaches are reported.
  ghost predicate ExecutedNatively(schema: Json, c: Clause)
    requires IsClause(schema, c)
  {
    && ReadNatively(schema, c) && !ExplicitNull(schema)
    && (c.at.AtProperty? ==> CarriedOut(HolderOf(schema, c.at).value, c.keyword))
  }

  ghost predicate CarriedOut(spec: Json, keyword: string)
    requires spec.JObj?
  {
    && (keyword == "minimum" && keyword in spec.m ==> MinimumIsEnforced(spec))
    && (keyword == "maximum" && keyword in spec.m ==> MaximumIsEnforced(spec))
    && (keyword == "pattern" && keyword in spec.m ==> spec.m[keyword] != JStr(""))
  }

  // The wired JSON Schema evaluator: the keywords it asserts and the formats it can check,
  // none of either when there is none.
  datatype Evaluator = Evaluator(words: set<string>, formats: set<string>)

  // Keywords that live in the handler of another keyword.
  const COMPOSED: map<string, string> :=
    map["then" := "if", "else" := "if", "minContains" := "contains", "maxContains" := "contains"]

  // Without that other keyword beside it such a keyword is never looked at.
  predicate Orphaned(evaluator: Evaluator, holder: Json, keyword: string)
    requires holder.JObj?
  {
    keyword in COMPOSED && (COMPOSED[keyword] !in evaluator.words || COMPOSED[keyword] !in holder.m)
  }

  // The evaluator executes the keywords it asserts wherever they stand, an exclusive bound
  // only in the form of its dialect, a composed keyword only beside its parent, and a format
  // only when it has a checker for it.
  predicate ExecutedSemantically(setting: Setting, evaluator: Evaluator, schema: Json, c: Clause)
    requires IsClause(schema, c)
  {
    var value, holder := ValueOf(schema, c), HolderOf(schema, c.at).value;
    if c.keyword in EXCLUSIVE_BOUNDS then AssertsBound(setting.Effective(), c.keyword, value, holder)
    else
      && c.keyword in evaluator.words && !Orphaned(evaluator, holder, c.keyword)
      && (c.keyword == "format" ==> value.JStr? && value.s in evaluator.formats)
  }

  ghost predicate Executed(setting: Setting, evaluator: Evaluator, schema: Json, c: Clause)
    requires IsClause(schema, c)
  {
    ExecutedNatively(schema, c) || ExecutedSemantically(setting, evaluator, schema, c)
  }

  const NATIVE_WORDS: set<string> :=
    {"properties", "required", "null_forbidden", "type", "enum", "min", "max", "minimum", "maximum", "pattern"}

  // How the sync use case composes what it asks admission about: the native words and what
  // the wired evaluator asserts. No keyword of JSON Schema has a dot.
  ghost predicate Wired(setting: Setting, evaluator: Evaluator) {
    && setting.enforced == NATIVE_WORDS + evaluator.words
    && (setting.capability.Some? ==>
          setting.capability.value.enforced == evaluator.words && setting.capability.value.formats == evaluator.formats)
    && forall word :: word in evaluator.words ==> '.' !in word
  }

  function PathOf(c: Clause): string {
    match c.at
    case AtRoot => ROOT + "." + c.keyword
    case AtProperty(name) => name + "." + c.keyword
  }

  // ------------------------------------------------------------------------------
  // What the scanner reports
  // ------------------------------------------------------------------------------

  ghost predicate Unread(schema: Json, c: Clause) {
    IsClause(schema, c) && !ReadNatively(schema, c)
  }

  lemma RootFinding(schema: Json, key: string, path: string)
    requires schema.JObj? && key in schema.keys && key in schema.m
    ensures path in TopFinding(schema, key) <==> Unread(schema, Clause(AtRoot, key)) && path == PathOf(Clause(AtRoot, key))
  {
    hide ReadAtTopLevel, IsMetadata;
    assert key == "type" ==> !ReadAtTopLevel(key) by {
      TypeIsNoTopLevelWord();
    }
  }

  lemma TypeIsNoTopLevelWord()
    ensures !ReadAtTopLevel("type") && !IsMetadata("type")
  {
  }

  lemma SpecFinding(schema: Json, name: string, key: string, path: string)
    requires schema.JObj? && HolderOf(schema, AtProperty(name)).Some?
    requires var spec := HolderOf(schema, AtProperty(name)).value; key in spec.keys && key in spec.m
    ensures var c := Clause(AtProperty(name), key);
            path in KeyFinding(name, HolderOf(schema, AtProperty(name)).value, key) <==> Unread(schema, c) && path == PathOf(c)
  {
    hide ReadPerProperty, IsMetadata, TypeIsEnforceable;
    assert name + "." + "type" == name + ".type";
    TypeIsNoTopLevelWord();
  }

  lemma RootFindings(schema: Json, path: string)
    requires WellFormed(schema) && schema.JObj?
    ensures path in FlatMap(schema.keys, TopFindings(schema))
       <==> exists c :: Unread(schema, c) && c.at.AtRoot? && PathOf(c) == path
  {
    hide FlatMap, TopFinding, ReadNatively;
    InFlatMap(schema.keys, TopFindings(schema), path);
    forall key | key in schema.keys
      ensures path in TopFinding(schema, key) <==> Unread(schema, Clause(AtRoot, key)) && path == PathOf(Clause(AtRoot, key))
    {
      RootFinding(schema, key, path);
    }
    if c :| Unread(schema, c) && c.at.AtRoot? && PathOf(c) == path {
      var i :| 0 <= i < |schema.keys| && schema.keys[i] == c.keyword;
      assert c == Clause(AtRoot, schema.keys[i]);
      assert path in TopFindings(schema)(schema.keys[i]);
    }
    if i :| 0 <= i < |schema.keys| && path in TopFindings(schema)(schema.keys[i]) {
      assert schema.keys[i] in schema.keys;
    }
  }

  lemma SpecFindings(schema: Json, name: string, path: string)
    requires WellFormed(schema) && schema.JObj? && PropertiesOf(schema).JObj? && name in PropertiesOf(schema).keys
    ensures path in PropertyFinding(PropertiesOf(schema), name)
       <==> exists c :: Unread(schema, c) && c.at == AtProperty(name) && PathOf(c) == path
  {
    hide FlatMap, KeyFinding, ReadNatively;
    var holder := HolderOf(schema, AtProperty(name));
    if holder.Some? {
      var spec := holder.value;
      WellFormedSpec(schema, name);
      InFlatMap(spec.keys, KeyFindings(name, spec), path);
      forall key | key in spec.keys
        ensures path in KeyFinding(name, spec, key)
           <==> Unread(schema, Clause(AtProperty(name), key)) && path == PathOf(Clause(AtProperty(name), key))
      {
        SpecFinding(schema, name, key, path);
      }
      if c :| Unread(schema, c) && c.at == AtProperty(name) && PathOf(c) == path {
        var i :| 0 <= i < |spec.keys| && spec.keys[i] == c.keyword;
        assert c == Clause(AtProperty(name), spec.keys[i]);
        assert path in KeyFindings(name, spec)(spec.keys[i]);
      }
      if i :| 0 <= i < |spec.keys| && path in KeyFindings(name, spec)(spec.keys[i]) {
        assert spec.keys[i] in spec.keys;
      }
    }
  }

  lemma WellFormedSpec(schema: Json, name: string)
    requires WellFormed(schema) && schema.JObj? && HolderOf(schema, AtProperty(name)).Some?
    ensures forall k :: k in HolderOf(schema, AtProperty(name)).value.keys <==> k in HolderOf(schema, AtProperty(name)).value.m
  {
    WellFormedValue(schema, "properties");
    WellFormedValue(PropertiesOf(schema), name);
  }

  lemma UnreadBelongsToAProperty(schema: Json)
    requires schema.JObj?
    ensures forall c :: Unread(schema, c) && c.at.AtProperty? ==>
              PropertiesOf(schema).JObj? && c.at.name in PropertiesOf(schema).keys
  {
  }

  // The scanner finds exactly the clauses the native rules do not read.
  lemma FindingsAreUnread(schema: Json, path: string)
    requires WellFormed(schema) && schema.JObj?
    ensures path in Findings(schema) <==> exists c :: Unread(schema, c) && PathOf(c) == path
  {
    hide FlatMap, PropertyFinding, Unread, PathOf, WellFormed, TopFinding;
    UnreadBelongsToAProperty(schema);
    RootFindings(schema, path);
    var properties := PropertiesOf(schema);
    if properties.JObj? {
      InFlatMap(properties.keys, PropertyFindings(properties), path);
      forall name | name in properties.keys
        ensures path in PropertyFinding(properties, name)
           <==> exists c :: Unread(schema, c) && c.at == AtProperty(name) && PathOf(c) == path
      {
        SpecFindings(schema, name, path);
      }
      if c :| Unread(schema, c) && c.at.AtProperty? && PathOf(c) == path {
        var i :| 0 <= i < |properties.keys| && properties.keys[i] == c.at.name;
        assert path in PropertyFindings(properties)(properties.keys[i]);
      }
      if i :| 0 <= i < |properties.keys| && path in PropertyFindings(properties)(properties.keys[i]) {
        assert properties.keys[i] in properties.keys;
      }
    }
  }

  // ------------------------------------------------------------------------------
  // What passes without being executed
  // ------------------------------------------------------------------------------

  // Taken for something it is not, by the last segment of its path alone: for a type
  // declaration, an exclusive bound or documentation, for a native word out of its place,
  // for a word of the evaluator behind a dot, or for the scanner's own marker.
  predicate Mistaken(evaluator: Evaluator, c: Clause) {
    var last := LastSegment(PathOf(c));
    || last == "type"
    || last in NATIVE_WORDS
    || last in EXCLUSIVE_BOUNDS
    || IsMetadata(last)
    || ('.' in c.keyword && last in evaluator.words)
    || "..." <= PathOf(c)
  }

  predicate PastTheCap(schema: Json, c: Clause)
    requires schema.JObj?
  {
    PathOf(c) !in Listed(Findings(schema))[..Shown(schema)]
  }

  // A format the evaluator does not check and the format check does not refuse.
  predicate UnassertedFormat(setting: Setting, evaluator: Evaluator, value: Json) {
    !value.JStr? || (setting.capability.None? && value.s !in evaluator.formats)
  }

  // Read by the native rules, in vain: an explicit null stands at the top, the bound is
  // shadowed by a weaker one that is read before it, or the pattern is empty.
  predicate ReadInVain(schema: Json, c: Clause)
    requires IsClause(schema, c)
  {
    ExplicitNull(schema) || (c.at.AtProperty? && NotCarriedOut(HolderOf(schema, c.at).value, c.keyword))
  }

  predicate NotCarriedOut(spec: Json, keyword: string)
    requires spec.JObj?
  {
    || (keyword == "minimum" && MinimumIsShadowed(spec))
    || (keyword == "maximum" && MaximumIsShadowed(spec))
    || (keyword == "pattern" && keyword in spec.m && spec.m[keyword] == JStr(""))
  }

  // The evaluator does nothing with it, and it is either read in vain or gets by the keyword
  // check unread.
  ghost predicate Slips(setting: Setting, evaluator: Evaluator, schema: Json, c: Clause) {
    && IsClause(schema, c) && c.keyword !in EXCLUSIVE_BOUNDS
    && ( || c.keyword !in evaluator.words
         || Orphaned(evaluator, HolderOf(schema, c.at).value, c.keyword)
         || (c.keyword == "format" && UnassertedFormat(setting, evaluator, ValueOf(schema, c))))
    && (if ReadNatively(schema, c) then ReadInVain(schema, c)
        else c.keyword in evaluator.words || Mistaken(evaluator, c) || PastTheCap(schema, c))
  }

  lemma LastOfPath(c: Clause)
    ensures '.' !in c.keyword ==> LastSegment(PathOf(c)) == c.keyword
  {
    if '.' !in c.keyword {
      match c.at
      case AtRoot => LastOfSplit(ROOT, c.keyword);
      case AtProperty(name) => LastOfSplit(name, c.keyword);
    }
  }

  lemma CoveredExactly(setting: Setting, evaluator: Evaluator, c: Clause)
    requires Wired(setting, evaluator)
    ensures Covered(setting.enforced, PathOf(c))
       <==> c.keyword in evaluator.words || c.keyword in EXCLUSIVE_BOUNDS || Mistaken(evaluator, c)
  {
    hide LastSegment, PathOf, IsMetadata;
    LastOfPath(c);
    assert forall bound :: bound in EXCLUSIVE_BOUNDS ==> '.' !in bound;
  }

  // The keyword check passes exactly the contracts in which every clause the native rules
  // do not execute is a word of the evaluator, is judged as an exclusive bound, is mistaken
  // for something else, or stands past the scanner's cap.
  lemma KeywordCheckExactly(schema: Json, setting: Setting, evaluator: Evaluator)
    requires WellFormed(schema) && schema.JObj? && Wired(setting, evaluator)
    ensures ReportedAreCovered(schema, setting.enforced)
       <==> forall c :: Unread(schema, c) ==>
              c.keyword in evaluator.words || c.keyword in EXCLUSIVE_BOUNDS || Mistaken(evaluator, c) || PastTheCap(schema, c)
  {
    hide Findings, Listed, Covered, Mistaken, Unread, PathOf, Wired;
    var listed, n := Listed(Findings(schema)), Shown(schema);
    if ReportedAreCovered(schema, setting.enforced) {
      forall c | Unread(schema, c) && !PastTheCap(schema, c)
        ensures c.keyword in evaluator.words || c.keyword in EXCLUSIVE_BOUNDS || Mistaken(evaluator, c)
      {
        var i :| 0 <= i < n && listed[..n][i] == PathOf(c);
        assert Covered(setting.enforced, listed[i]);
        CoveredExactly(setting, evaluator, c);
      }
    }
    if forall c :: Unread(schema, c) ==>
         c.keyword in evaluator.words || c.keyword in EXCLUSIVE_BOUNDS || Mistaken(evaluator, c) || PastTheCap(schema, c)
    {
      forall i | 0 <= i < n ensures Covered(setting.enforced, listed[i]) {
        OnlyFindingsAreListed(schema, listed[i]);
        FindingsAreUnread(schema, listed[i]);
        var c :| Unread(schema, c) && PathOf(c) == listed[i];
        assert listed[..n][i] == PathOf(c);
        CoveredExactly(setting, evaluator, c);
      }
    }
  }

  // Admission looked at every schema that holds a clause.
  lemma HolderIsSound(re: Regex, schema: Json, setting: Setting, at: Position)
    requires Admit(re, schema, setting).admitted && WellFormed(schema) && schema.JObj? && HolderOf(schema, at).Some?
    ensures var node := HolderOf(schema, at).value;
            && SoundBounds(setting.Effective(), node)
            && (setting.capability.Some? ==> SoundFormat(setting.Effective(), node))
  {
    hide Admit, WalkSubschemas, HoldsSchema, SoundReference, SoundPatterns, SoundFormat, SoundBounds,
         NamesOrNothing, SoundProperties, ReportedAreCovered;
    AdmittedExactly(re, schema, setting);
    var chain := WayTo(schema, at);
    WalkIsComplete(schema, ROOT, chain);
    var visits := WalkSubschemas(schema, ROOT);
    var i :| 0 <= i < |visits| && visits[i].node == HolderOf(schema, at).value;
    assert visits[i] in visits;
  }

  // An exclusive bound of an admitted contract is always executed: it is judged by value.
  lemma BoundsAreExecuted(re: Regex, schema: Json, setting: Setting, c: Clause)
    requires Admit(re, schema, setting).admitted && WellFormed(schema) && IsClause(schema, c) && c.keyword in EXCLUSIVE_BOUNDS
    ensures AssertsBound(setting.Effective(), c.keyword, ValueOf(schema, c), HolderOf(schema, c.at).value)
  {
    hide Admit, WellFormed, AssertsBound;
    HolderIsSound(re, schema, setting, c.at);
  }

  // So is a format given as a string, when admission was told which formats there are.
  lemma FormatsAreExecuted(re: Regex, schema: Json, setting: Setting, evaluator: Evaluator, c: Clause)
    requires Admit(re, schema, setting).admitted && WellFormed(schema) && Wired(setting, evaluator)
    requires IsClause(schema, c) && c.keyword == "format"
    ensures UnassertedFormat(setting, evaluator, ValueOf(schema, c))
       <==> !(ValueOf(schema, c).JStr? && ValueOf(schema, c).s in evaluator.formats)
  {
    hide Admit, WellFormed, SoundBounds;
    HolderIsSound(re, schema, setting, c.at);
  }

  lemma WayTo(schema: Json, at: Position) returns (chain: seq<Json>)
    requires schema.JObj? && HolderOf(schema, at).Some?
    ensures Beneath(schema, chain) && chain[|chain| - 1] == HolderOf(schema, at).value
  {
    var node := HolderOf(schema, at).value;
    ItselfBeneath(schema, node);
    match at
    case AtRoot => chain := [schema];
    case AtProperty(name) =>
      assert Names(schema, Properties, name) && Properties in SCHEMA_MAP_VALUED;
      assert HoldsSchema(schema, node);
      chain := [schema, node];
  }

  // What the native rules read of an admitted contract they execute unless it is read in vain.
  lemma NativelyExactlyWhen(re: Regex, schema: Json, setting: Setting, c: Clause)
    requires Admit(re, schema, setting).admitted && IsClause(schema, c)
    ensures ExecutedNatively(schema, c) <==> ReadNatively(schema, c) && !ReadInVain(schema, c)
  {
    hide Admit, ExplicitNull, ReadNatively, SoundSpec, MinimumIsEnforced, MaximumIsEnforced, MinimumIsShadowed,
         MaximumIsShadowed, ReportedAreCovered, NamesOrNothing, SoundNode, WalkSubschemas;
    AdmittedExactly(re, schema, setting);
    if c.at.AtProperty? {
      var spec := HolderOf(schema, c.at).value;
      assert SoundSpec(re, spec);
      if c.keyword == "minimum" {
        MinimumEnforcedExactlyWhen(re, spec);
      }
      if c.keyword == "maximum" {
        MaximumEnforcedExactlyWhen(re, spec);
      }
    }
  }

  // In an admitted contract a clause is executed by nobody exactly when it slips.
  lemma NobodyExecutesExactlyWhen(re: Regex, schema: Json, setting: Setting, evaluator: Evaluator, c: Clause)
    requires Admit(re, schema, setting).admitted && WellFormed(schema) && Wired(setting, evaluator) && IsClause(schema, c)
    ensures !Executed(setting, evaluator, schema, c) <==> Slips(setting, evaluator, schema, c)
  {
    hide Admit, WellFormed, ReportedAreCovered, NamesOrNothing, SoundProperties, SoundNode, WalkSubschemas, ExecutedNatively,
         ReadNatively, ReadInVain, AssertsBound, Mistaken, PastTheCap, Wired, HolderOf, Orphaned, UnassertedFormat;
    AdmittedExactly(re, schema, setting);
    KeywordCheckExactly(schema, setting, evaluator);
    NativelyExactlyWhen(re, schema, setting, c);
    if c.keyword in EXCLUSIVE_BOUNDS {
      BoundsAreExecuted(re, schema, setting, c);
    } else if c.keyword == "format" {
      FormatsAreExecuted(re, schema, setting, evaluator, c);
    }
  }

  // So admission keeps its promise, every clause is executed by someone, exactly for the
  // contracts in which nothing slips.
  lemma PromiseKeptExactlyWhen(re: Regex, schema: Json, setting: Setting, evaluator: Evaluator)
    requires Admit(re, schema, setting).admitted && WellFormed(schema) && Wired(setting, evaluator)
    ensures (forall c :: IsClause(schema, c) ==> Executed(setting, evaluator, schema, c))
       <==> forall c :: !Slips(setting, evaluator, schema, c)
  {
    hide Admit, WellFormed, Wired, Executed, IsClause;
    forall c | IsClause(schema, c) ensures !Executed(setting, evaluator, schema, c) <==> Slips(setting, evaluator, schema, c) {
      NobodyExecutesExactlyWhen(re, schema, setting, evaluator, c);
    }
    SlippingClauses(setting, evaluator, schema);
  }

  lemma SlippingClauses(setting: Setting, evaluator: Evaluator, schema: Json)
    ensures forall c :: Slips(setting, evaluator, schema, c) ==> IsClause(schema, c)
  {
  }

  // ------------------------------------------------------------------------------
  // What it means to execute a clause natively
  // ------------------------------------------------------------------------------

  ghost predicate Satisfies(re: Regex, value: Json, keyword: string, declared: Json) {
    match keyword
    case "type" => value.JNull? || exists name :: name in NamesOf(value) && Declares(declared, name)
    case "enum" => declared.JArr? && exists a :: a in declared.items && NormalOf(value) == NormalOf(a)
    case "min" => !Below(value, declared)
    case "minimum" => !Below(value, declared)
    case "max" => !Below(declared, value)
    case "maximum" => !Below(declared, value)
    case "pattern" => value.JStr? ==> declared.JStr? && re.fullMatch(declared.s, value.s)
    case _ => false
  }

  // The payload does what the clause asks.
  ghost predicate Obeys(re: Regex, payload: Json, schema: Json, c: Clause)
    requires IsClause(schema, c)
  {
    match c.at
    case AtRoot => ObeysAtRoot(payload, schema, c.keyword)
    case AtProperty(name) =>
      payload.JObj? && (name in payload.m ==> Satisfies(re, payload.m[name], c.keyword, ValueOf(schema, c)))
  }

  // "properties" asks for nothing itself, its entries are clauses of their own.
  ghost predicate ObeysAtRoot(payload: Json, schema: Json, keyword: string)
    requires schema.JObj? && keyword in schema.m
  {
    match keyword
    case "type" => exists name :: name in NamesOf(payload) && Declares(schema.m["type"], name)
    case "properties" => payload.JObj?
    case "required" => forall field :: ListedUnder(schema, "required", field) ==> IsPresent(payload, field)
    case "null_forbidden" =>
      payload.JObj? &&
      forall field :: ListedUnder(schema, "null_forbidden", field) && field in payload.m ==> !payload.m[field].JNull?
    case _ => false
  }

  // A payload the rules pass obeys every clause of an admitted contract that they execute.
  lemma ExecutedIsObeyed(re: Regex, payload: Json, schema: Json, setting: Setting, c: Clause)
    requires Admit(re, schema, setting).admitted && IsClause(schema, c)
    requires ExecutedNatively(schema, c) && Validate(re, payload, schema) == Clean()
    ensures Obeys(re, payload, schema, c)
  {
    hide Admit, Validate, Satisfies, WrongValue, SoundSpec, ReadNatively, CarriedOut, IsPresent, ListedUnder, ObeysAtRoot;
    AdmittedExactly(re, schema, setting);
    OnlyObjectsPass(re, payload, schema);
    ReportsExactlyTheViolations(re, payload, schema, setting);
    match c.at
    case AtRoot =>
      forall field | ListedUnder(schema, "required", field) ensures IsPresent(payload, field) {
        assert !Violates(re, payload, schema, RuleBreach(field, Missing));
      }
      forall field | ListedUnder(schema, "null_forbidden", field) && field in payload.m ensures !payload.m[field].JNull? {
        assert !Violates(re, payload, schema, RuleBreach(field, IsNull));
      }
      ReadAtRootIsObeyed(payload, schema, c.keyword);
    case AtProperty(name) =>
      if name in payload.m {
        var spec := HolderOf(schema, c.at).value;
        forall cause | cause != Missing && cause != IsNull ensures !WrongValue(re, payload.m[name], spec, cause) {
          assert !Violates(re, payload, schema, RuleBreach(name, cause));
        }
        ReadInASpec(schema, c);
        RightValueSatisfies(re, payload.m[name], spec, c.keyword);
      }
  }

  lemma OnlyObjectsPass(re: Regex, payload: Json, schema: Json)
    requires schema.JObj? && Validate(re, payload, schema) == Clean()
    ensures payload.JObj?
  {
  }

  lemma ReadAtRootIsObeyed(payload: Json, schema: Json, keyword: string)
    requires IsClause(schema, Clause(AtRoot, keyword)) && ReadNatively(schema, Clause(AtRoot, keyword)) && payload.JObj?
    requires forall field :: ListedUnder(schema, "required", field) ==> IsPresent(payload, field)
    requires forall field :: ListedUnder(schema, "null_forbidden", field) && field in payload.m ==> !payload.m[field].JNull?
    ensures ObeysAtRoot(payload, schema, keyword)
  {
    hide IsPresent, ListedUnder;
    if keyword == "type" {
      assert "object" in NamesOf(payload) && Declares(schema.m["type"], "object");
    }
  }

  lemma ReadInASpec(schema: Json, c: Clause)
    requires IsClause(schema, c) && ReadNatively(schema, c) && c.at.AtProperty?
    ensures c.keyword in BOUNDS || c.keyword == "type" || c.keyword == "enum" || c.keyword == "pattern"
  {
  }

  lemma RightValueSatisfies(re: Regex, value: Json, spec: Json, keyword: string)
    requires SoundSpec(re, spec) && keyword in spec.m && CarriedOut(spec, keyword)
    requires keyword in BOUNDS || keyword == "type" || keyword == "enum" || keyword == "pattern"
    requires forall cause :: cause != Missing && cause != IsNull ==> !WrongValue(re, value, spec, cause)
    ensures Satisfies(re, value, keyword, spec.m[keyword])
  {
    hide SoundSpec, CarriedOut, NamesOf, Declares, PyEqual, Below;
    if keyword in BOUNDS {
      RightValueInRange(re, value, spec, keyword);
    } else {
      EnumAndPatternAreSound(re, spec, keyword);
      assert !WrongValue(re, value, spec, WrongType) && !WrongValue(re, value, spec, NotAllowed);
      assert !WrongValue(re, value, spec, ValueTooLong) && !WrongValue(re, value, spec, NoMatch);
    }
  }

  lemma EnumAndPatternAreSound(re: Regex, spec: Json, keyword: string)
    requires SoundSpec(re, spec) && keyword in spec.m && CarriedOut(spec, keyword)
    ensures spec.JObj?
    ensures keyword == "enum" ==> spec.m[keyword].JArr?
    ensures keyword == "pattern" ==> HasPattern(spec)
    ensures "min" in BOUNDS && "minimum" in BOUNDS && "max" in BOUNDS && "maximum" in BOUNDS
  {
  }

  lemma RightValueInRange(re: Regex, value: Json, spec: Json, bound: string)
    requires SoundSpec(re, spec) && bound in BOUNDS && bound in spec.m && CarriedOut(spec, bound)
    requires !WrongValue(re, value, spec, BelowMinimum) && !WrongValue(re, value, spec, AboveMaximum)
    ensures Satisfies(re, value, bound, spec.m[bound])
  {
    if IsNumber(value) {
      RangeExact(re, Holding(value), "x", spec);
    }
  }
}
