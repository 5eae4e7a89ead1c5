// Admitted contracts in which a clause slips: executed by nobody, and passed by admission.
module Slipping {
  import opened Json
  import opened Sorting
  import opened Collecting
  import opened JsonPointer
  import opened References
  import opened RuleEngine
  import opened SchemaVocabulary
  import opened Admission
  import opened AdmissionMeaning
  import opened PlainContracts
  import opened Faithful
  import opened Coverage

  // ------------------------------------------------------------------------------
  // Mistaken for something else
  // ------------------------------------------------------------------------------

  lemma RulesWithoutParameters(re: Regex, payload: Json, schema: Json)
    requires payload.JObj? && schema.JObj?
    requires "properties" !in schema.m && "required" !in schema.m && "null_forbidden" !in schema.m
    ensures Validate(re, payload, schema) == Clean()
  {
    assert ForEach([], PresenceRule(payload)) == Clean() && ForEach([], NullRule(payload)) == Clean();
  }

  // What a contract of one root keyword comes to when neither side has it.
  lemma OneKeyIsNobodys(setting: Setting, evaluator: Evaluator, key: string, value: Json)
    requires !IsMetadata(key) && !ReadAtTopLevel(key) && (key == "type" ==> value != JStr("object"))
    requires key !in EXCLUSIVE_BOUNDS && (key !in evaluator.words || Orphaned(evaluator, OneKey(key, value), key))
    ensures var schema, c := OneKey(key, value), Clause(AtRoot, key);
            IsClause(schema, c) && !Executed(setting, evaluator, schema, c)
  {
    hide IsMetadata, ReadAtTopLevel, ExplicitNull, CarriedOut, Orphaned;
  }

  const ROOT_WORDS := ["type", "enum", "then", "else", "minContains", "maxContains"]

  lemma RootWordsAreUnread(word: string)
    requires word in ROOT_WORDS
    ensures !IsMetadata(word) && !ReadAtTopLevel(word) && word !in EXCLUSIVE_BOUNDS
  {
  }

  lemma RootWordsAreUnjudged(word: string)
    requires word in ROOT_WORDS
    ensures word !in JUDGED_WORDS && (word != "then" && word != "else" ==> forall k: Keyword :: Word(k) != word)
  {
  }

  // {"type": "array"} is admitted by every setting. Without an evaluator that asserts
  // "type" nobody executes it: every object passes.
  lemma RootTypeSlips(re: Regex, setting: Setting, evaluator: Evaluator, payload: Json)
    requires "type" !in evaluator.words && payload.JObj?
    ensures var schema, c := OneKey("type", JStr("array")), Clause(AtRoot, "type");
            && Admit(re, schema, setting).admitted && WellFormed(schema)
            && IsClause(schema, c) && !Executed(setting, evaluator, schema, c)
            && Validate(re, payload, schema) == Clean()
  {
    hide Admit, Validate, LastSegment, Executed, IsClause, IsMetadata, ReadAtTopLevel;
    LastOfSplit(ROOT, "type");
    RootWordsAreUnread("type");
    RootWordsAreUnjudged("type");
    OneKeyIsNobodys(setting, evaluator, "type", JStr("array"));
    OneKeyAdmitted(re, setting, "type", JStr("array"));
    RulesWithoutParameters(re, payload, OneKey("type", JStr("array")));
  }

  // {"enum": []} forbids everything, and "enum" is a native word, but not at the root.
  lemma RootEnumSlips(re: Regex, setting: Setting, evaluator: Evaluator, payload: Json)
    requires Wired(setting, evaluator) && "enum" !in evaluator.words && payload.JObj?
    ensures var schema, c := OneKey("enum", JArr([])), Clause(AtRoot, "enum");
            && Admit(re, schema, setting).admitted && WellFormed(schema)
            && IsClause(schema, c) && !Executed(setting, evaluator, schema, c)
            && Validate(re, payload, schema) == Clean()
  {
    hide Admit, Validate, LastSegment, Executed, IsClause, IsMetadata, ReadAtTopLevel;
    LastOfSplit(ROOT, "enum");
    RootWordsAreUnread("enum");
    RootWordsAreUnjudged("enum");
    OneKeyIsNobodys(setting, evaluator, "enum", JArr([]));
    OneKeyAdmitted(re, setting, "enum", JArr([]));
    RulesWithoutParameters(re, payload, OneKey("enum", JArr([])));
  }

  // A clause whose name has a dot, whatever the setting: {"words.type": ...}.
  lemma DottedNameSlips(re: Regex, setting: Setting, evaluator: Evaluator, value: Json)
    requires "words.type" !in evaluator.words && WellFormed(value)
    ensures var schema, c := OneKey("words.type", value), Clause(AtRoot, "words.type");
            && Admit(re, schema, setting).admitted && WellFormed(schema)
            && IsClause(schema, c) && !Executed(setting, evaluator, schema, c)
  {
    hide Admit, LastSegment, Executed, IsClause, IsMetadata, ReadAtTopLevel;
    DottedIsNobodys();
    LastOfSplit(ROOT + ".words", "type");
    assert ROOT + ".words" + "." + "type" == ROOT + "." + "words.type";
    OneKeyIsNobodys(setting, evaluator, "words.type", value);
    OneKeyAdmitted(re, setting, "words.type", value);
  }

  lemma DottedIsNobodys()
    ensures !ReadAtTopLevel("words.type") && !IsMetadata("words.type") && "words.type" !in EXCLUSIVE_BOUNDS
    ensures "words.type" !in JUDGED_WORDS && forall k: Keyword :: Word(k) != "words.type"
  {
  }

  const ADDRESS: Json := OneKey("required", JArr([JStr("street")]))

  // {"properties": {"address": {"required": ["street"]}}} with the native rules alone: an
  // address without a street passes.
  lemma NestedRequiredSlips(re: Regex, setting: Setting, evaluator: Evaluator)
    requires Wired(setting, evaluator) && "required" !in evaluator.words
    ensures var schema, c := OneProperty("address", ADDRESS), Clause(AtProperty("address"), "required");
            && Admit(re, schema, setting).admitted && WellFormed(schema)
            && IsClause(schema, c) && !Executed(setting, evaluator, schema, c)
            && Validate(re, OneKey("address", JObj([], map[])), schema) == Clean()
  {
    hide Admit, Validate, Plain, SoundSpec, WellFormed, IsClause, Executed, Findings, Covered;
    AddressIsPlain(re);
    AddressClause(setting, evaluator);
    OnePropertyAdmitted(re, setting, "address", ADDRESS);
    AddressPasses(re);
  }

  lemma AddressClause(setting: Setting, evaluator: Evaluator)
    requires Wired(setting, evaluator) && "required" !in evaluator.words
    ensures var schema, c := OneProperty("address", ADDRESS), Clause(AtProperty("address"), "required");
            IsClause(schema, c) && !Executed(setting, evaluator, schema, c)
    ensures forall path :: path in Findings(OneProperty("address", ADDRESS)) ==> Covered(setting.enforced, path)
  {
    hide LastSegment, Findings, FlatMap, IsMetadata, ReadPerProperty;
    RequiredIsNoPropertyWord();
    OnePropertyFindings("address", ADDRESS);
    FlatMapOne("required", KeyFindings("address", ADDRESS));
    LastOfSplit("address", "required");
  }

  lemma RequiredIsNoPropertyWord()
    ensures !ReadPerProperty("required") && !IsMetadata("required")
  {
  }

  lemma AddressIsPlain(re: Regex)
    ensures Plain(ADDRESS) && SoundSpec(re, ADDRESS) && '.' !in "address"
    ensures WellFormed(OneProperty("address", ADDRESS))
  {
    hide TypeIsEnforceable, GoodPattern, WellFormed;
    OneKeyIsWellFormed("required", JArr([JStr("street")]));
    OneKeyIsWellFormed("address", ADDRESS);
    OneKeyIsWellFormed("properties", OneKey("address", ADDRESS));
    StreetIsWellFormed();
  }

  lemma OneKeyIsWellFormed(key: string, value: Json)
    ensures WellFormed(value) ==> WellFormed(OneKey(key, value))
  {
  }

  lemma StreetIsWellFormed()
    ensures WellFormed(JArr([JStr("street")]))
  {
  }

  lemma AddressPasses(re: Regex)
    ensures Validate(re, OneKey("address", JObj([], map[])), OneProperty("address", ADDRESS)) == Clean()
  {
    var payload, properties := OneKey("address", JObj([], map[])), OneKey("address", ADDRESS);
    forall rule ensures OverProperties(re, rule, payload, properties) == Clean() {
      assert PropertyOf(re, rule, payload, properties, "address") == Clean();
      assert ["address"][..0] == [];
    }
    assert ForEach([], PresenceRule(payload)) == Clean() && ForEach([], NullRule(payload)) == Clean();
  }

  // ------------------------------------------------------------------------------
  // Below the properties
  // ------------------------------------------------------------------------------

  const HOLDERS := [Not, Then, Else]

  // A contract that is one keyword holding one schema with nothing to judge in it.
  lemma OneSchemaAdmitted(re: Regex, setting: Setting, k: Keyword, below: Json)
    requires k in HOLDERS && Word(k) in setting.enforced && Plain(below)
    ensures Admit(re, OneKey(Word(k), below), setting).admitted
  {
    hide Admit, SoundNode, WalkSubschemas, HoldsSchema, ReportedAreCovered, LastSegment, Findings, Listed, Word;
    var schema := OneKey(Word(k), below);
    PlainWords(k);
    NoDotInWords(k);
    AdmittedExactly(re, schema, setting);
    OneKeyFindings(Word(k), below);
    LastOfSplit(ROOT, Word(k));
    AllCovered(schema, setting.enforced);
    var part := node => node == schema || node == below;
    forall a, b | part(a) && HoldsSchema(a, b) ensures part(b) {
      OnlyBelow(k, below, a, b);
    }
    WalkStaysWithin(schema, ROOT, part);
    forall v | v in WalkSubschemas(schema, ROOT) ensures SoundNode(re, schema, setting, v) {
      UnjudgedIsSound(re, schema, setting, v);
    }
  }

  lemma PlainWords(k: Keyword)
    requires k in HOLDERS
    ensures k in SCHEMA_VALUED
    ensures Word(k) !in JUDGED_WORDS && Word(k) != "properties" && Word(k) != "required" && Word(k) != "null_forbidden"
  {
  }

  lemma NoDotInWords(k: Keyword)
    requires k in HOLDERS
    ensures '.' !in Word(k)
  {
  }

  lemma OnlyBelow(k: Keyword, below: Json, a: Json, b: Json)
    requires k in SCHEMA_VALUED && Plain(below)
    requires (a == OneKey(Word(k), below) || a == below) && HoldsSchema(a, b)
    ensures b == below
  {
    hide HoldsSchema, Plain, Word;
    if a == below {
      NothingInPlain(a, b);
    } else {
      PlainIsAnObject(below);
      OneKeyHoldsOne(k, below, b);
    }
  }

  lemma PlainIsAnObject(node: Json)
    ensures Plain(node) ==> node.JObj?
  {
  }

  lemma OneKeyHoldsOne(k: Keyword, below: Json, b: Json)
    requires k in SCHEMA_VALUED && below.JObj? && HoldsSchema(OneKey(Word(k), below), b)
    ensures b == below
  {
    hide Word;
    WordsDiffer();
  }

  lemma WordsDiffer()
    ensures forall k: Keyword, other: Keyword :: Word(k) == Word(other) ==> k == other
  {
  }

  // Below the properties nothing is scanned: {"not": {word: ...}} is admitted wherever "not"
  // is enforced, whatever the word, unless it is one of those judged at every depth.
  lemma DeeperWordsAreNotScanned(re: Regex, setting: Setting, word: string, value: Json)
    requires "not" in setting.enforced
    requires word !in JUDGED_WORDS && forall k: Keyword :: Word(k) != word
    ensures Admit(re, OneKey("not", OneKey(word, value)), setting).admitted
  {
    hide Admit;
    OneSchemaAdmitted(re, setting, Not, OneKey(word, value));
  }

  // ------------------------------------------------------------------------------
  // Composed keywords without their parent
  // ------------------------------------------------------------------------------

  // {"then": ...} without "if", and {"minContains": ...} without "contains", are admitted
  // wherever the evaluator has the words, which then do nothing.
  lemma OrphanedBranchSlips(re: Regex, setting: Setting, evaluator: Evaluator, k: Keyword, below: Json)
    requires Wired(setting, evaluator) && (k == Then || k == Else) && Word(k) in evaluator.words
    requires Plain(below) && WellFormed(below)
    ensures var schema, c := OneKey(Word(k), below), Clause(AtRoot, Word(k));
            && Admit(re, schema, setting).admitted && WellFormed(schema)
            && IsClause(schema, c) && !Executed(setting, evaluator, schema, c)
  {
    hide Admit, WellFormed, Executed, IsClause, IsMetadata, ReadAtTopLevel, Plain;
    RootWordsAreUnread(Word(k));
    OneKeyIsNobodys(setting, evaluator, Word(k), below);
    OneSchemaAdmitted(re, setting, k, below);
    OneKeyIsWellFormed(Word(k), below);
  }

  lemma OrphanedCountSlips(re: Regex, setting: Setting, evaluator: Evaluator, keyword: string, count: int)
    requires Wired(setting, evaluator) && (keyword == "minContains" || keyword == "maxContains") && keyword in evaluator.words
    ensures var schema, c := OneKey(keyword, JInt(count)), Clause(AtRoot, keyword);
            && Admit(re, schema, setting).admitted && WellFormed(schema)
            && IsClause(schema, c) && !Executed(setting, evaluator, schema, c)
  {
    hide Admit, LastSegment, Executed, IsClause, IsMetadata, ReadAtTopLevel;
    LastOfSplit(ROOT, keyword);
    RootWordsAreUnread(keyword);
    RootWordsAreUnjudged(keyword);
    OneKeyIsNobodys(setting, evaluator, keyword, JInt(count));
    OneKeyAdmitted(re, setting, keyword, JInt(count));
  }

  // ------------------------------------------------------------------------------
  // Read in vain
  // ------------------------------------------------------------------------------

  // {"properties": {"x": {"min": a, "minimum": b}}} with the native rules alone, or with an
  // evaluator that has no "minimum": an x from a up to b passes, below its minimum.
  lemma ShadowedMinimumSlips(re: Regex, setting: Setting, evaluator: Evaluator, a: int, b: int, value: int)
    requires "minimum" !in evaluator.words && a <= value < b
    ensures var schema, c := OneProperty("x", TwoBounds("min", a, "minimum", b)), Clause(AtProperty("x"), "minimum");
            && Admit(re, schema, setting).admitted && WellFormed(schema)
            && IsClause(schema, c) && ReadNatively(schema, c) && !Executed(setting, evaluator, schema, c)
            && Validate(re, Holding(JInt(value)), schema) == Clean() && !Obeys(re, Holding(JInt(value)), schema, c)
  {
    hide Admit, Validate, WellFormed, IsClause, HolderOf, ReadNatively, Executed, Obeys, MinimumIsEnforced, Plain, SoundSpec;
    MinBesideMinimumPasses(re, setting, a, b, value);
    TwoBoundsPlain(re, "min", a, "minimum", b);
    MinimumEnforcedExactlyWhen(re, TwoBounds("min", a, "minimum", b));
    TwoBoundsWellFormed("min", a, "minimum", b);
    BoundIsNobodys(re, setting, evaluator, TwoBounds("min", a, "minimum", b), "minimum");
  }

  lemma ShadowedMaximumSlips(re: Regex, setting: Setting, evaluator: Evaluator, a: int, b: int, value: int)
    requires "maximum" !in evaluator.words && a < value <= b
    ensures var schema, c := OneProperty("x", TwoBounds("max", b, "maximum", a)), Clause(AtProperty("x"), "maximum");
            && Admit(re, schema, setting).admitted && WellFormed(schema)
            && IsClause(schema, c) && ReadNatively(schema, c) && !Executed(setting, evaluator, schema, c)
            && Validate(re, Holding(JInt(value)), schema) == Clean() && !Obeys(re, Holding(JInt(value)), schema, c)
  {
    hide Admit, Validate, WellFormed, IsClause, HolderOf, ReadNatively, Executed, Obeys, MaximumIsEnforced, Plain, SoundSpec;
    MaxBesideMaximumPasses(re, setting, a, b, value);
    TwoBoundsPlain(re, "max", b, "maximum", a);
    MaximumEnforcedExactlyWhen(re, TwoBounds("max", b, "maximum", a));
    TwoBoundsWellFormed("max", b, "maximum", a);
    BoundIsNobodys(re, setting, evaluator, TwoBounds("max", b, "maximum", a), "maximum");
  }

  lemma BoundIsNobodys(re: Regex, setting: Setting, evaluator: Evaluator, spec: Json, bound: string)
    requires spec.JObj? && bound in spec.keys && bound in spec.m && bound !in evaluator.words
    requires (bound == "minimum" && !MinimumIsEnforced(spec)) || (bound == "maximum" && !MaximumIsEnforced(spec))
    ensures var schema, c := OneProperty("x", spec), Clause(AtProperty("x"), bound);
            && IsClause(schema, c) && ReadNatively(schema, c) && !Executed(setting, evaluator, schema, c)
            && forall value :: (if bound == "minimum" then Below(value, spec.m[bound]) else Below(spec.m[bound], value)) ==>
                 !Obeys(re, Holding(value), schema, c)
  {
    hide MinimumIsEnforced, MaximumIsEnforced, IsMetadata, ReadPerProperty, ExplicitNull, Orphaned;
    BoundsAreRead();
  }

  lemma BoundsAreRead()
    ensures ReadPerProperty("minimum") && ReadPerProperty("maximum") && !IsMetadata("minimum") && !IsMetadata("maximum")
  {
  }

  lemma TwoBoundsWellFormed(first: string, a: int, second: string, b: int)
    requires first != second
    ensures WellFormed(OneProperty("x", TwoBounds(first, a, second, b)))
  {
    hide WellFormed;
    TwoKeysWellFormed(first, JInt(a), second, JInt(b));
    OneKeyIsWellFormed("x", TwoBounds(first, a, second, b));
    OneKeyIsWellFormed("properties", OneKey("x", TwoBounds(first, a, second, b)));
  }

  lemma TwoKeysWellFormed(first: string, a: Json, second: string, b: Json)
    requires first != second && WellFormed(a) && WellFormed(b)
    ensures WellFormed(JObj([first, second], map[first := a, second := b]))
  {
  }

  // {"required": [name], "null_forbidden": null}: the null ends every validation, so nobody
  // asks for the name.
  lemma NullSilencesTheRest(re: Regex, setting: Setting, evaluator: Evaluator, name: string, payload: Json)
    requires "required" !in evaluator.words && payload.JObj?
    ensures var schema := JObj(["required", "null_forbidden"], map["required" := JArr([JStr(name)]), "null_forbidden" := JNull]);
            var c := Clause(AtRoot, "required");
            && Admit(re, schema, setting).admitted && WellFormed(schema)
            && IsClause(schema, c) && ReadNatively(schema, c) && !Executed(setting, evaluator, schema, c)
            && Validate(re, payload, schema).Raised?
  {
    hide Admit, Validate, WellFormed, Findings, Listed;
    var schema := JObj(["required", "null_forbidden"], map["required" := JArr([JStr(name)]), "null_forbidden" := JNull]);
    ListAndNullArePlain(schema, name);
    PlainVerdict(re, schema, setting);
    assert Listed(Findings(schema)) == [] by {
      ListAndNullFindNothing(schema);
    }
    ExplicitNullRaises(re, payload, schema);
  }

  lemma ListAndNullArePlain(schema: Json, name: string)
    requires schema == JObj(["required", "null_forbidden"], map["required" := JArr([JStr(name)]), "null_forbidden" := JNull])
    ensures PlainContract(schema) && WellFormed(schema)
    ensures NamesOrNothing(schema, "required") && NamesOrNothing(schema, "null_forbidden")
  {
    assert "required" !in JUDGED_WORDS && "null_forbidden" !in JUDGED_WORDS;
    ListIsWellFormed(name);
    hide WellFormed;
    TwoKeysWellFormed("required", JArr([JStr(name)]), "null_forbidden", JNull);
  }

  lemma ListIsWellFormed(name: string)
    ensures WellFormed(JArr([JStr(name)])) && WellFormed(JNull)
  {
  }

  lemma ListAndNullFindNothing(schema: Json)
    requires schema.JObj? && schema.keys == ["required", "null_forbidden"] && PropertiesOf(schema) == JNull
    ensures Listed(Findings(schema)) == []
  {
    hide Sort, Distinct;
    NothingCollected(schema.keys, TopFindings(schema));
    assert Distinct<string>([]) == [] && Sort([], StringLeq) == [] by { NothingSorted(); }
  }

  lemma NothingSorted()
    ensures Distinct<string>([]) == [] && Sort([], StringLeq) == []
  {
  }

  const NO_PATTERN: Json := OneKey("pattern", JStr(""))

  // {"properties": {"x": {"pattern": ""}}}: the rule skips an empty pattern, so any x passes,
  // although only the empty string matches it in full.
  lemma EmptyPatternSlips(re: Regex, setting: Setting, evaluator: Evaluator, s: string)
    requires re.compiles("") && "pattern" !in evaluator.words && !re.fullMatch("", s)
    ensures var schema, c := OneProperty("x", NO_PATTERN), Clause(AtProperty("x"), "pattern");
            && Admit(re, schema, setting).admitted && WellFormed(schema)
            && IsClause(schema, c) && ReadNatively(schema, c) && !Executed(setting, evaluator, schema, c)
            && Validate(re, Holding(JStr(s)), schema) == Clean() && !Obeys(re, Holding(JStr(s)), schema, c)
  {
    hide Admit, Validate, IsClause, ReadNatively, Executed, Obeys, WellFormed, HolderOf;
    NoPatternAdmitted(re, setting);
    NoPatternIsNobodys(re, setting, evaluator, s);
    NoPatternPasses(re, s);
    OneKeyIsWellFormed("pattern", JStr(""));
    OneKeyIsWellFormed("x", NO_PATTERN);
    OneKeyIsWellFormed("properties", OneKey("x", NO_PATTERN));
    assert WellFormed(JStr("")) by { TextIsWellFormed(""); }
  }

  lemma TextIsWellFormed(s: string)
    ensures WellFormed(JStr(s))
  {
  }

  lemma NoPatternIsNobodys(re: Regex, setting: Setting, evaluator: Evaluator, s: string)
    requires "pattern" !in evaluator.words && !re.fullMatch("", s)
    ensures var schema, c := OneProperty("x", NO_PATTERN), Clause(AtProperty("x"), "pattern");
            && IsClause(schema, c) && ReadNatively(schema, c) && !Executed(setting, evaluator, schema, c)
            && !Obeys(re, Holding(JStr(s)), schema, c)
  {
    hide ExplicitNull, Orphaned;
  }

  lemma NoPatternPasses(re: Regex, s: string)
    ensures Validate(re, Holding(JStr(s)), OneProperty("x", NO_PATTERN)) == Clean()
  {
    var payload, properties := Holding(JStr(s)), OneKey("x", NO_PATTERN);
    forall rule ensures OverProperties(re, rule, payload, properties) == Clean() {
      assert PropertyOf(re, rule, payload, properties, "x") == Clean();
      assert ["x"][..0] == [];
    }
    assert ForEach([], PresenceRule(payload)) == Clean() && ForEach([], NullRule(payload)) == Clean();
  }

  lemma NoPatternAdmitted(re: Regex, setting: Setting)
    requires re.compiles("")
    ensures Admit(re, OneProperty("x", NO_PATTERN), setting).admitted
  {
    hide Admit, SoundNode, WalkSubschemas, HoldsSchema, ReportedAreCovered, Findings, Listed, Covered;
    var schema := OneProperty("x", NO_PATTERN);
    AdmittedExactly(re, schema, setting);
    NoPatternCovered(setting);
    var part := node => node == schema || node == NO_PATTERN;
    forall a, b | part(a) && HoldsSchema(a, b) ensures part(b) {
      NoPatternBelow(a, b);
    }
    WalkStaysWithin(schema, ROOT, part);
    forall v | v in WalkSubschemas(schema, ROOT) ensures SoundNode(re, schema, setting, v) {
      NoPatternSound(re, setting, v);
    }
  }

  lemma NoPatternCovered(setting: Setting)
    ensures ReportedAreCovered(OneProperty("x", NO_PATTERN), setting.enforced)
  {
    hide ReportedAreCovered, Findings, Listed, Covered, FlatMap;
    OnePropertyFindings("x", NO_PATTERN);
    FlatMapOne("pattern", KeyFindings("x", NO_PATTERN));
    AllCovered(OneProperty("x", NO_PATTERN), setting.enforced);
  }

  lemma NoPatternBelow(a: Json, b: Json)
    requires (a == OneProperty("x", NO_PATTERN) || a == NO_PATTERN) && HoldsSchema(a, b)
    ensures b == NO_PATTERN
  {
  }

  lemma NoPatternSound(re: Regex, setting: Setting, visit: Visit)
    requires re.compiles("") && (visit.node == OneProperty("x", NO_PATTERN) || visit.node == NO_PATTERN)
    ensures SoundNode(re, OneProperty("x", NO_PATTERN), setting, visit)
  {
    hide Resolve, NeverEnds, AssertsBound;
  }

  // ------------------------------------------------------------------------------
  // A format that is no string
  // ------------------------------------------------------------------------------

  // {"format": 1} is admitted wherever formats are asserted: no check looks at it.
  lemma OddFormatSlips(re: Regex, setting: Setting, evaluator: Evaluator, n: int)
    requires Wired(setting, evaluator) && "format" in evaluator.words
    ensures var schema, c := OneKey("format", JInt(n)), Clause(AtRoot, "format");
            && Admit(re, schema, setting).admitted && WellFormed(schema)
            && IsClause(schema, c) && !Executed(setting, evaluator, schema, c)
  {
    hide Admit, SoundNode, WalkSubschemas, HoldsSchema, ReportedAreCovered, Findings, Listed, LastSegment,
         ExplicitNull, CarriedOut, Orphaned;
    var schema := OneKey("format", JInt(n));
    AdmittedExactly(re, schema, setting);
    OneKeyFindings("format", JInt(n));
    LastOfSplit(ROOT, "format");
    AllCovered(schema, setting.enforced);
    var part := node => node == schema;
    forall a, b ensures part(a) && HoldsSchema(a, b) ==> part(b) {
      NothingBelowFormat(n, b);
    }
    WalkStaysWithin(schema, ROOT, part);
    forall v | v in WalkSubschemas(schema, ROOT) ensures SoundNode(re, schema, setting, v) {
      OddFormatSound(re, setting, n, v);
    }
  }

  lemma NothingBelowFormat(n: int, b: Json)
    ensures !HoldsSchema(OneKey("format", JInt(n)), b)
  {
  }

  lemma OddFormatSound(re: Regex, setting: Setting, n: int, visit: Visit)
    requires visit.node == OneKey("format", JInt(n))
    ensures SoundNode(re, OneKey("format", JInt(n)), setting, visit)
  {
    hide Resolve, NeverEnds, AssertsBound;
  }

  // ------------------------------------------------------------------------------
  // An admitted contract in which the cap hides a clause
  // ------------------------------------------------------------------------------

  // Properties "a" to "t" hold a native word out of its place, "u" holds "maxWords".
  function Letter(i: nat): string
    requires i <= MAX_REPORTED
  {
    [('a' as int + i) as char]
  }

  function WordAt(name: string): string {
    if name == Letter(MAX_REPORTED) then "maxWords" else "required"
  }

  function Letters(): seq<string> {
    seq(MAX_REPORTED + 1, i requires 0 <= i <= MAX_REPORTED => Letter(i))
  }

  function Crowd(): Json {
    JObj(Letters(), map name | name in Letters() :: OneKey(WordAt(name), JNull))
  }

  function Crowded(): Json {
    OneKey("properties", Crowd())
  }

  function CrowdPaths(): seq<string> {
    seq(MAX_REPORTED + 1, i requires 0 <= i <= MAX_REPORTED => Letter(i) + "." + WordAt(Letter(i)))
  }

  const HIDDEN: Clause := Clause(AtProperty("u"), "maxWords")

  lemma CrowdFindings()
    ensures Findings(Crowded()) == CrowdPaths()
  {
    hide Letters, KeyFinding;
    var properties := Crowd();
    FlatMapOne("properties", TopFindings(Crowded()));
    forall i | 0 <= i <= MAX_REPORTED
      ensures |Letters()| == MAX_REPORTED + 1 && PropertyFinding(properties, Letters()[i]) == [CrowdPaths()[i]]
    {
      LettersAre(i);
      var word := WordAt(Letter(i));
      WordIsFound(Letter(i), OneKey(word, JNull), word);
      FlatMapOne(word, KeyFindings(Letter(i), OneKey(word, JNull)));
    }
    OneEach(properties.keys, PropertyFindings(properties), CrowdPaths());
  }

  lemma LettersAre(i: nat)
    requires i <= MAX_REPORTED
    ensures |Letters()| == MAX_REPORTED + 1 && Letters()[i] == Letter(i) && Letter(i) in Letters()
  {
  }

  lemma WordIsFound(name: string, spec: Json, word: string)
    requires spec.JObj? && (word == "required" || word == "maxWords")
    ensures KeyFinding(name, spec, word) == [name + "." + word]
  {
  }

  lemma CrowdOrder()
    ensures forall i, j :: 0 <= i < j <= MAX_REPORTED ==> CrowdPaths()[i] != CrowdPaths()[j]
    ensures forall i :: 0 <= i <= MAX_REPORTED ==> StringLeq(CrowdPaths()[i], CrowdPaths()[MAX_REPORTED])
    ensures CrowdPaths()[MAX_REPORTED] == PathOf(HIDDEN)
  {
    hide WordAt;
    assert Letter(MAX_REPORTED) == "u";
    forall i | 0 <= i <= MAX_REPORTED ensures CrowdPaths()[i][0] == ('a' as int + i) as char {
    }
    StringTotal(CrowdPaths()[MAX_REPORTED], CrowdPaths()[MAX_REPORTED]);
    LastWord();
  }

  lemma LastWord()
    ensures Letter(MAX_REPORTED) == "u" && WordAt("u") == "maxWords"
  {
    assert Letter(MAX_REPORTED) == "u";
  }

  lemma HiddenByTheCap()
    ensures PastTheCap(Crowded(), HIDDEN)
  {
    hide Findings, CrowdPaths, StringLeq, Sort, Distinct;
    CrowdFindings();
    CrowdOrder();
    CrowdLength();
    var paths, all := CrowdPaths(), Listed(Findings(Crowded()));
    DistinctAlready(paths);
    StringOrder();
    SortSorts(paths, StringLeq);
    SortMembers(paths, StringLeq);
    StillDistinct(all, paths);
    if i :| 0 <= i < Shown(Crowded()) && all[i] == PathOf(HIDDEN) {
      forall k | 0 <= k < |all| ensures StringLeq(all[k], all[i]) {
        assert all[k] in paths;
      }
      GreatestIsLast(all, i, StringLeq);
    }
  }

  lemma CrowdLength()
    ensures |CrowdPaths()| == MAX_REPORTED + 1
  {
  }

  lemma CrowdSpec(re: Regex, name: string)
    ensures var spec := OneKey(WordAt(name), JNull); Plain(spec) && SoundSpec(re, spec) && WellFormed(spec)
  {
    hide Letter;
  }

  lemma CrowdIsPlain(re: Regex)
    ensures PlainContract(Crowded()) && SoundProperties(re, Crowded()) && WellFormed(Crowded())
  {
    hide Letters, Plain, SoundSpec, WordAt;
    forall name ensures var spec := OneKey(WordAt(name), JNull); Plain(spec) && SoundSpec(re, spec) && WellFormed(spec) {
      CrowdSpec(re, name);
    }
    forall name | name in Letters() ensures '.' !in name {
      NoDotInLetters(name);
    }
    CrowdIsWellFormed();
  }

  lemma CrowdIsWellFormed()
    requires forall name :: WellFormed(OneKey(WordAt(name), JNull))
    ensures WellFormed(Crowded())
  {
    hide Letters, WordAt;
    LettersDiffer();
    assert WellFormed(Crowd());
  }

  lemma NoDotInLetters(name: string)
    requires name in Letters()
    ensures '.' !in name
  {
    var i :| 0 <= i < |Letters()| && Letters()[i] == name;
    assert name == Letter(i);
  }

  lemma LettersDiffer()
    ensures forall i, j :: 0 <= i < j < |Letters()| ==> Letters()[i] != Letters()[j]
  {
    forall i, j | 0 <= i < j < |Letters()| ensures Letters()[i] != Letters()[j] {
      assert Letters()[i][0] == ('a' as int + i) as char && Letters()[j][0] == ('a' as int + j) as char;
    }
  }

  // Twenty clauses that pass by name hide the twenty-first, which nobody executes: the
  // contract is admitted.
  lemma TheCapHidesAClause(re: Regex, setting: Setting, evaluator: Evaluator)
    requires Wired(setting, evaluator) && "maxWords" !in evaluator.words
    ensures && Admit(re, Crowded(), setting).admitted && WellFormed(Crowded())
            && IsClause(Crowded(), HIDDEN) && !Executed(setting, evaluator, Crowded(), HIDDEN)
            && !Mistaken(evaluator, HIDDEN)
  {
    hide Admit, Findings, Mistaken, PastTheCap, PlainContract, SoundProperties, ReportedAreCovered, WellFormed, Letters,
         LastSegment, Crowd;
    CrowdIsPlain(re);
    PlainVerdict(re, Crowded(), setting);
    HiddenIsThere(evaluator);
    forall c | Unread(Crowded(), c) ensures c == HIDDEN || Mistaken(evaluator, c) {
      CrowdClauses(evaluator, c);
    }
    HiddenByTheCap();
    KeywordCheckExactly(Crowded(), setting, evaluator);
  }

  lemma HiddenIsThere(evaluator: Evaluator)
    ensures IsClause(Crowded(), HIDDEN) && !ExecutedNatively(Crowded(), HIDDEN) && !Mistaken(evaluator, HIDDEN)
  {
    hide Letters, LastSegment, ExplicitNull, CarriedOut, IsMetadata, ReadPerProperty, Mistaken;
    LettersAre(MAX_REPORTED);
    LastWord();
    HiddenIsNotMistaken(evaluator);
  }

  lemma HiddenIsNotMistaken(evaluator: Evaluator)
    ensures !Mistaken(evaluator, HIDDEN) && !IsMetadata("maxWords") && !ReadPerProperty("maxWords")
  {
    hide LastSegment;
    LastOfSplit("u", "maxWords");
    assert PathOf(HIDDEN)[0] == 'u' && "..."[0] == '.';
  }

  lemma CrowdClauses(evaluator: Evaluator, c: Clause)
    requires Unread(Crowded(), c)
    ensures c == HIDDEN || Mistaken(evaluator, c)
  {
    hide Letters, LastSegment;
    LastWord();
    match c.at
    case AtRoot =>
    case AtProperty(name) =>
      assert c.keyword == WordAt(name);
      LastOfSplit(name, "required");
  }
}
